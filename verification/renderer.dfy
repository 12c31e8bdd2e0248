/** `render.Renderer`: draws the layers and objects of a map into its result
    raster through the engine of the map's orientation, keeping a cache of
    tile images. The raster is its bounds and the log of blits; `visits`
    and `drawnObjects` record, for the contracts, which layers and object
    groups were drawn to the end and which objects were handled, in order. */
module Render {
  import opened Errors
  import opened Canvas
  import opened TmxTileset
  import opened TmxObject
  import opened Tiled
  import opened RenderSpec
  import opened Utils

  class Renderer {
    const m: Map
    const engine: Engine
    const loader: ImageLoader
    var result: Raster
    var tileCache: TileCache
    ghost var visits: seq<Target>
    ghost var drawnObjects: seq<Obj>

    /** A renderer for `m` with the engine already initialised, a cleared
        result and an empty cache. */
    constructor (m: Map, engine: Engine, loader: ImageLoader)
      ensures this.m == m && this.engine == engine && this.loader == loader
      ensures result == Raster(engine.FinalImageSize(), []) && tileCache == map[]
      ensures visits == [] && drawnObjects == []
    {
      this.m := m;
      this.engine := engine;
      this.loader := loader;
      tileCache := map[];
      visits := [];
      drawnObjects := [];
      result := Raster(engine.FinalImageSize(), []);
    }

    /** `Clear`: a fresh transparent raster of the engine's final size; the
        cache is kept. */
    method Clear()
      modifies this
      ensures result == Raster(engine.FinalImageSize(), [])
      ensures tileCache == old(tileCache) && visits == old(visits) && drawnObjects == old(drawnObjects)
    {
      result := Raster(engine.FinalImageSize(), []);
    }

    /** `getTileImage`: the tile's image after the engine's flips, filling the
        cache on a miss with the tile's image-collection entries or with every
        tile of its atlas. */
    method GetTileImage(t: LayerTile) returns (r: Result<Option<Image>>)
      requires t.Tile?
      modifies this
      ensures tileCache == TileFill(old(tileCache), t.tileset, t.id, loader).cache
      ensures r == TileImage(engine, t, TileFill(old(tileCache), t.tileset, t.id, loader).image)
      ensures result == old(result) && visits == old(visits) && drawnObjects == old(drawnObjects)
    {
      var ts := t.tileset;
      var key := Key(ts.firstGID, Index(t.id));
      if key in tileCache {
        return TileImage(engine, t, Ok(Some(tileCache[key])));
      }
      var timg: Option<Image> := None;
      if ts.desc.image.None? {
        var tiles := ts.desc.tiles;
        var i := 0;
        while i < |tiles|
          invariant 0 <= i <= |tiles|
          invariant timg.Some? ==> key in tileCache && tileCache[key] == timg.value
          invariant CollectionFill(tileCache, timg, key, t.id, tiles[i..], ts.baseDir, loader) ==
                    CollectionFill(old(tileCache), None, key, t.id, tiles, ts.baseDir, loader)
          invariant result == old(result) && visits == old(visits) && drawnObjects == old(drawnObjects)
        {
          assert tiles[i..][0] == tiles[i] && tiles[i..][1..] == tiles[i + 1..];
          if tiles[i].id == t.id {
            if tiles[i].image.None? {
              return Err(Panic("nil pointer dereference"));
            }
            var loaded := loader(ts.baseDir, tiles[i].image.value.source);
            if loaded.Err? {
              return Err(loaded.error);
            }
            tileCache := tileCache[key := loaded.value];
            timg := Some(loaded.value);
          }
          i := i + 1;
        }
      } else {
        var loaded := loader(ts.baseDir, ts.desc.image.value.source);
        if loaded.Err? {
          return Err(loaded.error);
        }
        var img := loaded.value;
        var count := Count32(ts.desc.tileCount);
        var i := 0;
        while i < count
          invariant 0 <= i <= count
          invariant AtlasFill(tileCache, timg, i, count, ts.firstGID, t.id, ts.desc, img) ==
                    AtlasFill(old(tileCache), None, 0, count, ts.firstGID, t.id, ts.desc, img)
          invariant result == old(result) && visits == old(visits) && drawnObjects == old(drawnObjects)
          decreases count - i
        {
          var rect := ts.desc.GetTileRect(Idx(i));
          if rect.Err? {
            return Err(rect.error);
          }
          tileCache := tileCache[Key(ts.firstGID, i) := Cropped(img, rect.value)];
          if Index(t.id) == i {
            timg := Some(tileCache[Key(ts.firstGID, i)]);
          }
          i := i + 1;
        }
      }
      return TileImage(engine, t, Ok(timg));
    }

    /** `_renderTile`: draw the tile at index `i` of the layer into the cell
        (x, y), through the opacity mask when the layer is translucent. */
    method RenderTile(layer: Layer, i: int, x: int, y: int) returns (err: Option<Error>)
      modifies this
      ensures RunState(tileCache, result.blits, err) ==
              TileStep(engine, loader, layer.tiles, layer.opacity, RunState(old(tileCache), old(result.blits), None), Cell(i, x, y))
      ensures result.bounds == old(result.bounds) && visits == old(visits) && drawnObjects == old(drawnObjects)
    {
      if !(0 <= i < |layer.tiles|) {
        return Some(Panic("index out of range"));
      }
      if layer.tiles[i].None? {
        return Some(Panic("nil pointer dereference"));
      }
      var t := layer.tiles[i].value;
      if t.IsNil() {
        return None;
      }
      var img := GetTileImage(t);
      if img.Err? {
        return Some(img.error);
      }
      if img.value.None? {
        return Some(Panic("nil pointer dereference"));
      }
      var pos := engine.TilePosition(x, y);
      if layer.opacity < 1.0 {
        result := result.(blits := result.blits + [TileBlit(pos, img.value.value, Some(layer.opacity))]);
      } else {
        result := result.(blits := result.blits + [TileBlit(pos, img.value.value, None)]);
      }
      return None;
    }

    /** `_renderLayer`: every cell of the layer in the engine's order (row by
        row; a hexagonal row takes its even columns and then its odd ones),
        stopping at the first error; an orthogonal map must have the
        right-down render order. */
    method RenderLayerTiles(layer: Layer) returns (err: Option<Error>)
      modifies this
      ensures RunState(tileCache, result.blits, err) ==
              LayerRun(engine, loader, m.orientation, m.renderOrder, m.width, m.height, layer.tiles, layer.opacity,
                       RunState(old(tileCache), old(result.blits), None))
      ensures result.bounds == old(result.bounds) && old(result.blits) <= result.blits
      ensures drawnObjects == old(drawnObjects)
      ensures visits == old(visits) + (if err.None? then [LayerTarget(layer)] else [])
    {
      ghost var expected := LayerRun(engine, loader, m.orientation, m.renderOrder, m.width, m.height, layer.tiles,
                                     layer.opacity, RunState(tileCache, result.blits, None));
      LayerRunGrows(engine, loader, m.orientation, m.renderOrder, m.width, m.height, layer.tiles, layer.opacity,
                    RunState(tileCache, result.blits, None));
      var xi: nat;
      var odd: bool;
      if m.orientation == "hexagonal" {
        xi, odd := 2, true;
      } else if m.renderOrder == "" || m.renderOrder == "right-down" {
        xi, odd := 1, false;
      } else {
        return Some(ErrUnsupportedRenderOrder);
      }
      label rows:
      err := RenderRows(layer, m.width, m.height, xi, odd);
      assert unchanged@rows(layer) && unchanged@rows(Tilesets(layer.tiles));
      assert RunState(tileCache, result.blits, err) == expected;
      if err.None? {
        visits := visits + [LayerTarget(layer)];
      }
    }

    /** The outer loop of `_renderLayer`: rows 0 to `h - 1`, top to bottom. */
    method RenderRows(layer: Layer, w: int, h: int, xi: nat, odd: bool) returns (err: Option<Error>)
      requires xi == if odd then 2 else 1
      modifies this
      ensures RunState(tileCache, result.blits, err) ==
              Run(engine, loader, layer.tiles, layer.opacity, RunState(old(tileCache), old(result.blits), None), LayerCells(0, w, h, odd))
      ensures result.bounds == old(result.bounds) && visits == old(visits) && drawnObjects == old(drawnObjects)
    {
      ghost var final := Run(engine, loader, layer.tiles, layer.opacity, RunState(tileCache, result.blits, None),
                             LayerCells(0, w, h, odd));
      var y := 0;
      while y < h
        invariant 0 <= y
        invariant Run(engine, loader, layer.tiles, layer.opacity, RunState(tileCache, result.blits, None),
                      LayerCells(y, w, h, odd)) == final
        invariant unchanged(layer) && unchanged(Tilesets(layer.tiles))
        invariant result.bounds == old(result.bounds) && visits == old(visits) && drawnObjects == old(drawnObjects)
        decreases h - y
      {
        RunAppend(engine, loader, layer.tiles, layer.opacity, RunState(tileCache, result.blits, None),
                  RowCells(y, w, odd), LayerCells(y + 1, w, h, odd));
        label row:
        err := RenderRow(layer, y, w, xi, odd);
        assert unchanged@row(layer) && unchanged@row(Tilesets(layer.tiles));
        if err.Some? {
          return;
        }
        y := y + 1;
      }
      assert LayerCells(y, w, h, odd) == [];
      err := None;
    }

    /** One pass of the outer loop of `_renderLayer`: row `y` left to right,
        or its even columns and then its odd ones. */
    method RenderRow(layer: Layer, y: int, w: int, xi: nat, odd: bool) returns (err: Option<Error>)
      requires xi == if odd then 2 else 1
      modifies this
      ensures RunState(tileCache, result.blits, err) ==
              Run(engine, loader, layer.tiles, layer.opacity, RunState(old(tileCache), old(result.blits), None), RowCells(y, w, odd))
      ensures result.bounds == old(result.bounds) && visits == old(visits) && drawnObjects == old(drawnObjects)
    {
      if odd {
        RunAppend(engine, loader, layer.tiles, layer.opacity, RunState(tileCache, result.blits, None),
                  Span(y, w, 0, 2), Span(y, w, 1, 2));
      }
      label even:
      err := RenderSpan(layer, y, w, 0, xi);
      assert unchanged@even(layer) && unchanged@even(Tilesets(layer.tiles));
      if err.Some? || !odd {
        return;
      }
      err := RenderSpan(layer, y, w, 1, 2);
    }

    /** One inner loop of `_renderLayer`: the cells of row `y` from column
        `x0` in steps of `step`, with the tile index kept in step. */
    method RenderSpan(layer: Layer, y: int, w: int, x0: int, step: nat) returns (err: Option<Error>)
      requires step > 0
      modifies this
      ensures RunState(tileCache, result.blits, err) ==
              Run(engine, loader, layer.tiles, layer.opacity, RunState(old(tileCache), old(result.blits), None), Span(y, w, x0, step))
      ensures result.bounds == old(result.bounds) && visits == old(visits) && drawnObjects == old(drawnObjects)
    {
      var x := x0;
      ghost var target := Run(engine, loader, layer.tiles, layer.opacity, RunState(tileCache, result.blits, None), Span(y, w, x0, step));
      while x < w
        invariant unchanged(layer) && unchanged(Tilesets(layer.tiles))
        invariant Run(engine, loader, layer.tiles, layer.opacity, RunState(tileCache, result.blits, None), Span(y, w, x, step)) == target
        invariant result.bounds == old(result.bounds) && visits == old(visits) && drawnObjects == old(drawnObjects)
        decreases w - x
      {
        label before:
        err := RenderSpanTile(layer, y, w, x, step);
        assert unchanged@before(layer) && unchanged@before(Tilesets(layer.tiles));
        if err.Some? {
          return;
        }
        x := x + step;
      }
      err := None;
    }

    /** One pass of the loop of `RenderSpan`: the tile at column `x`, after
        which the run goes on from column `x + step` unless it failed. */
    method RenderSpanTile(layer: Layer, y: int, w: int, x: int, step: nat) returns (err: Option<Error>)
      requires step > 0 && x < w
      modifies this
      ensures err.None? ==>
                Run(engine, loader, layer.tiles, layer.opacity, RunState(tileCache, result.blits, None), Span(y, w, x + step, step)) ==
                Run(engine, loader, layer.tiles, layer.opacity, RunState(old(tileCache), old(result.blits), None), Span(y, w, x, step))
      ensures err.Some? ==>
                RunState(tileCache, result.blits, err) ==
                Run(engine, loader, layer.tiles, layer.opacity, RunState(old(tileCache), old(result.blits), None), Span(y, w, x, step))
      ensures result.bounds == old(result.bounds) && visits == old(visits) && drawnObjects == old(drawnObjects)
    {
      ghost var cur := RunState(tileCache, result.blits, None);
      RunSpanStep(engine, loader, layer.tiles, layer.opacity, cur, y, w, x, step);
      label before:
      err := RenderTile(layer, y * w + x, x, y);
      assert unchanged@before(layer) && unchanged@before(Tilesets(layer.tiles));
    }

    /** `RenderLayer`: the map layer at `id`; an index past the end is
        `ErrOutOfBounds`, a negative one the Go index panic. */
    method RenderLayer(id: int) returns (err: Option<Error>)
      modifies this
      ensures id >= |m.layers| ==> err == Some(ErrOutOfBounds)
      ensures id < 0 ==> err.Some? && err.value.Panic?
      ensures !(0 <= id < |m.layers|) ==>
                result == old(result) && tileCache == old(tileCache) && visits == old(visits)
      ensures 0 <= id < |m.layers| ==>
                RunState(tileCache, result.blits, err) ==
                LayerRun(engine, loader, m.orientation, m.renderOrder, m.width, m.height, m.layers[id].tiles,
                         m.layers[id].opacity, RunState(old(tileCache), old(result.blits), None)) &&
                visits == old(visits) + (if err.None? then [LayerTarget(m.layers[id])] else [])
      ensures result.bounds == old(result.bounds) && old(result.blits) <= result.blits
      ensures drawnObjects == old(drawnObjects)
    {
      if id >= |m.layers| {
        return Some(ErrOutOfBounds);
      }
      if id < 0 {
        return Some(Panic("index out of range"));
      }
      err := RenderLayerTiles(m.layers[id]);
    }

    /** `RenderGroupLayer`: layer `layerID` of group `groupID`. */
    method RenderGroupLayer(groupID: int, layerID: int) returns (err: Option<Error>)
      modifies this
      ensures groupID >= |m.groups| ==> err == Some(ErrOutOfBounds)
      ensures 0 <= groupID < |m.groups| && layerID >= |m.groups[groupID].layers| ==> err == Some(ErrOutOfBounds)
      ensures groupID < 0 || (0 <= groupID < |m.groups| && layerID < 0) ==> err.Some? && err.value.Panic?
      ensures !(0 <= groupID < |m.groups| && 0 <= layerID < |m.groups[groupID].layers|) ==>
                result == old(result) && tileCache == old(tileCache) && visits == old(visits)
      ensures 0 <= groupID < |m.groups| && 0 <= layerID < |m.groups[groupID].layers| ==>
                var layer := m.groups[groupID].layers[layerID];
                RunState(tileCache, result.blits, err) ==
                LayerRun(engine, loader, m.orientation, m.renderOrder, m.width, m.height, layer.tiles,
                         layer.opacity, RunState(old(tileCache), old(result.blits), None)) &&
                visits == old(visits) + (if err.None? then [LayerTarget(layer)] else [])
      ensures result.bounds == old(result.bounds) && old(result.blits) <= result.blits
      ensures drawnObjects == old(drawnObjects)
    {
      if groupID >= |m.groups| {
        return Some(ErrOutOfBounds);
      }
      if groupID < 0 {
        return Some(Panic("index out of range"));
      }
      var group := m.groups[groupID];
      if layerID >= |group.layers| {
        return Some(ErrOutOfBounds);
      }
      if layerID < 0 {
        return Some(Panic("index out of range"));
      }
      err := RenderLayerTiles(group.layers[layerID]);
    }

    /** `RenderVisibleLayers`: every visible map layer in order, stopping at
        the first error. */
    method RenderVisibleLayers() returns (err: Option<Error>)
      modifies this
      ensures RunState(tileCache, result.blits, err) ==
              LayersRun(engine, loader, m.orientation, m.renderOrder, m.width, m.height, m.layers,
                        RunState(old(tileCache), old(result.blits), None))
      ensures err.None? ==> visits == old(visits) + VisibleLayers(m.layers)
      ensures result.bounds == old(result.bounds) && old(result.blits) <= result.blits
      ensures drawnObjects == old(drawnObjects)
    {
      ghost var final := LayersRun(engine, loader, m.orientation, m.renderOrder, m.width, m.height, m.layers,
                                   RunState(tileCache, result.blits, None));
      err := None;
      var i := 0;
      while i < |m.layers| && err.None?
        invariant 0 <= i <= |m.layers|
        invariant err.None? ==> LayersRun(engine, loader, m.orientation, m.renderOrder, m.width, m.height, m.layers[i..],
                                          RunState(tileCache, result.blits, None)) == final
        invariant err.Some? ==> RunState(tileCache, result.blits, err) == final
        invariant err.None? ==> visits == old(visits) + VisibleLayers(m.layers[..i])
        invariant result.bounds == old(result.bounds) && old(result.blits) <= result.blits
        invariant drawnObjects == old(drawnObjects)
      {
        VisibleLayersSnoc(m.layers, i);
        err := RenderVisibleLayerStep(i, final);
        i := i + 1;
      }
      if err.None? {
        assert m.layers[..i] == m.layers;
      }
      assert unchanged(LayersTilesets(m.layers));
    }

    /** One pass of the loop of `RenderVisibleLayers`: map layer `i` when it
        is visible, after which the rest of the layers still lead to
        `final`. */
    method RenderVisibleLayerStep(i: int, ghost final: RunState) returns (err: Option<Error>)
      requires 0 <= i < |m.layers|
      requires LayersRun(engine, loader, m.orientation, m.renderOrder, m.width, m.height, m.layers[i..],
                         RunState(tileCache, result.blits, None)) == final
      modifies this
      ensures err.None? ==> LayersRun(engine, loader, m.orientation, m.renderOrder, m.width, m.height, m.layers[i + 1..],
                                      RunState(tileCache, result.blits, None)) == final
      ensures err.Some? ==> RunState(tileCache, result.blits, err) == final
      ensures err.None? ==> visits == old(visits) + if m.layers[i].visible then [LayerTarget(m.layers[i])] else []
      ensures result.bounds == old(result.bounds) && old(result.blits) <= result.blits
      ensures drawnObjects == old(drawnObjects)
    {
      ghost var cur := RunState(tileCache, result.blits, None);
      var l := m.layers[i];
      ghost var next := if l.visible then LayerRun(engine, loader, m.orientation, m.renderOrder, m.width, m.height,
                                                   l.tiles, l.opacity, cur) else cur;
      assert m.layers[i..][0] == l && m.layers[i..][1..] == m.layers[i + 1..];
      assert LayersRun(engine, loader, m.orientation, m.renderOrder, m.width, m.height, m.layers[i + 1..], next) == final;
      err := None;
      if l.visible {
        label call:
        err := RenderLayer(i);
        assert unchanged@call(l) && unchanged@call(Tilesets(l.tiles));
        assert unchanged@call(LayersTilesets(m.layers[i + 1..]));
        assert RunState(tileCache, result.blits, err) == next;
      }
    }

    /** `RenderVisibleLayersAndObjectGroups`: the visible layers, then the
        visible object groups, whatever their order in the file. `draws`
        records what drawing each object group saw. */
    method RenderVisibleLayersAndObjectGroups() returns (err: Option<Error>, ghost draws: seq<GroupDraw>)
      modifies this, m.TilesetRepr(), ObjectArrays(m.objectGroups)
      ensures var mid := old(LayersRun(engine, loader, m.orientation, m.renderOrder, m.width, m.height, m.layers,
                                       RunState(tileCache, result.blits, None)));
              if mid.err.Some? then RunState(tileCache, result.blits, err) == mid && draws == []
              else
                GroupsDrawnFrom(m, m.objectGroups, old(ObjectContents(m.objectGroups)), draws, err.None?) &&
                (err.None? ==> |draws| == |m.objectGroups|) &&
                RunState(tileCache, result.blits, err) == ObjectGroupsRun(engine, loader, m.objectGroups, draws, mid)
      ensures err.None? ==> visits == old(visits) + VisibleLayers(m.layers) + VisibleObjectGroups(m.objectGroups)
      ensures result.bounds == old(result.bounds) && old(result.blits) <= result.blits
    {
      draws := [];
      err := RenderVisibleLayers();
      assert unchanged(LayersTilesets(m.layers));
      assert RunState(tileCache, result.blits, err) ==
             old(LayersRun(engine, loader, m.orientation, m.renderOrder, m.width, m.height, m.layers,
                           RunState(tileCache, result.blits, None)));
      if err.Some? {
        return;
      }
      err, draws := RenderVisibleObjectGroups();
    }

    /** `renderOneObject`: an invisible object or one without a GID is
        skipped; otherwise its GID is resolved, its tile image fetched through
        the cache, resized to the object's size when they differ, rotated by
        the object's rotation and drawn with the group's opacity. `out` is
        what the GID resolved to. */
    method RenderOneObject(group: ObjectGroup, o: Obj) returns (err: Option<Error>, ghost out: Result<LayerTile>)
      modifies this, m.TilesetRepr()
      ensures visits == old(visits) && drawnObjects == old(drawnObjects) && result.bounds == old(result.bounds)
      ensures old(result.blits) <= result.blits
      ensures forall k :: |old(result.blits)| <= k < |result.blits| ==>
                result.blits[k].ObjectBlit? && result.blits[k].alpha == Mask(group.opacity)
      ensures !o.visible || o.gid == 0 ==>
                out == Ok(NilTile) && err.None? && tileCache == old(tileCache) && result == old(result) &&
                unchanged(m.TilesetRepr())
      ensures o.visible && o.gid != 0 && old(m.ResolveError(o.gid)).Some? ==>
                out == Err(old(m.ResolveError(o.gid)).value) &&
                err == old(m.ResolveError(o.gid)) && tileCache == old(tileCache) && result == old(result) &&
                unchanged(m.TilesetRepr())
      ensures o.visible && o.gid != 0 ==> m.ResolvedAs(o.gid, out)
      ensures o.visible && o.gid != 0 && old(m.ResolveError(o.gid)).None? ==>
                out.Ok? && m.Resolves(o.gid, out.value) && out.value.Tile? &&
                RunState(tileCache, result.blits, err) ==
                ObjectStep(engine, loader, RunState(old(tileCache), old(result.blits), None), out.value, o, group.opacity)
      ensures RunState(tileCache, result.blits, err) ==
              OneObject(engine, loader, group.opacity, RunState(old(tileCache), old(result.blits), None), o, out)
      ensures forall t :: t in OutcomeTilesets([out]) ==> t.sourceLoaded
      ensures forall t :: t in m.TilesetRepr() && old(t.sourceLoaded) ==> unchanged(t)
      ensures forall g :: m.ResolveError(g) == old(m.ResolveError(g))
    {
      out := Ok(NilTile);
      if !o.visible {
        return None, out;
      }
      if o.gid == 0 {
        return None, out;
      }
      var resolved := m.TileGIDToTile(o.gid);
      out := resolved;
      if resolved.Err? {
        return Some(resolved.error), out;
      }
      err := DrawObjectTile(group, o, resolved.value);
    }

    /** The drawing half of `renderOneObject`, once the GID is resolved: the
        tile image through the cache, resized to the object's size when they
        differ, rotated by the object's rotation and drawn with the group's
        opacity. */
    method DrawObjectTile(group: ObjectGroup, o: Obj, t: LayerTile) returns (err: Option<Error>)
      requires t.Tile?
      modifies this
      ensures visits == old(visits) && drawnObjects == old(drawnObjects) && result.bounds == old(result.bounds)
      ensures old(result.blits) <= result.blits
      ensures forall k :: |old(result.blits)| <= k < |result.blits| ==>
                result.blits[k].ObjectBlit? && result.blits[k].alpha == Mask(group.opacity)
      ensures RunState(tileCache, result.blits, err) ==
              ObjectStep(engine, loader, RunState(old(tileCache), old(result.blits), None), t, o, group.opacity)
    {
      var img := GetTileImage(t);
      if img.Err? {
        return Some(img.error);
      }
      if img.value.None? {
        return Some(Panic("nil pointer dereference"));
      }
      var sized := img.value.value;
      if Size(sized) != Some((o.width, o.height)) {
        sized := Resized(sized, o.width, o.height);
      }
      var pos := ObjectDest(o, sized);
      var rotated := Rotated(sized, -o.rotation);
      if group.opacity < 1.0 {
        result := result.(blits := result.blits + [ObjectBlit(pos, rotated, Some(group.opacity))]);
      } else {
        result := result.(blits := result.blits + [ObjectBlit(pos, rotated, None)]);
      }
      return None;
    }

    /** `_renderObjectGroup`: sort the group's objects in place by (Y, X) and
        draw them in that order, stopping at the first error. `outs` is what
        the GIDs of the objects handled resolved to. */
    method RenderObjects(group: ObjectGroup) returns (err: Option<Error>, ghost outs: seq<Result<LayerTile>>)
      modifies this, m.TilesetRepr(), group.objects
      ensures DrawingOrder(group.objects[..])
      ensures multiset(group.objects[..]) == multiset(old(group.objects[..]))
      ensures DrawnFrom(m, multiset(old(group.objects[..])), GroupDraw(group.objects[..], outs))
      ensures err.None? ==> |outs| == group.objects.Length
      ensures RunState(tileCache, result.blits, err) ==
              ObjectsRun(engine, loader, group.opacity, RunState(old(tileCache), old(result.blits), None),
                         group.objects[..], outs)
      ensures result.bounds == old(result.bounds) && old(result.blits) <= result.blits
      ensures forall k :: |old(result.blits)| <= k < |result.blits| ==>
                result.blits[k].ObjectBlit? && result.blits[k].alpha == Mask(group.opacity)
      ensures err.None? ==> visits == old(visits) + [ObjectGroupTarget(group)] &&
                            drawnObjects == old(drawnObjects) + group.objects[..]
      ensures err.Some? ==> visits == old(visits)
      ensures forall t :: t in m.TilesetRepr() && old(t.sourceLoaded) ==> unchanged(t)
      ensures forall g :: m.ResolveError(g) == old(m.ResolveError(g))
    {
      SortObjects(group.objects);
      err, outs := DrawObjects(group);
    }

    /** The loop of `_renderObjectGroup`: each object of the group in array
        order, stopping at the first error. */
    method DrawObjects(group: ObjectGroup) returns (err: Option<Error>, ghost outs: seq<Result<LayerTile>>)
      modifies this, m.TilesetRepr()
      ensures |outs| <= group.objects.Length && (err.None? ==> |outs| == group.objects.Length)
      ensures forall k :: 0 <= k < |outs| && group.objects[k].visible && group.objects[k].gid != 0 ==>
                m.ResolvedAs(group.objects[k].gid, outs[k])
      ensures forall t :: t in OutcomeTilesets(outs) ==> t.sourceLoaded
      ensures RunState(tileCache, result.blits, err) ==
              ObjectsRun(engine, loader, group.opacity, RunState(old(tileCache), old(result.blits), None),
                         group.objects[..], outs)
      ensures result.bounds == old(result.bounds) && old(result.blits) <= result.blits
      ensures forall k :: |old(result.blits)| <= k < |result.blits| ==>
                result.blits[k].ObjectBlit? && result.blits[k].alpha == Mask(group.opacity)
      ensures err.None? ==> visits == old(visits) + [ObjectGroupTarget(group)] &&
                            drawnObjects == old(drawnObjects) + group.objects[..]
      ensures err.Some? ==> visits == old(visits)
      ensures forall t :: t in m.TilesetRepr() && old(t.sourceLoaded) ==> unchanged(t)
      ensures forall g :: m.ResolveError(g) == old(m.ResolveError(g))
    {
      ghost var st0 := RunState(tileCache, result.blits, None);
      ghost var keep := set t | t in m.TilesetRepr() && t.sourceLoaded;
      assert forall t :: t in m.TilesetRepr() && old(t.sourceLoaded) ==> t in keep;
      outs := [];
      err := None;
      var k := 0;
      while k < group.objects.Length && err.None?
        invariant 0 <= k <= group.objects.Length && |outs| == k
        invariant forall j :: 0 <= j < k && group.objects[j].visible && group.objects[j].gid != 0 ==>
                    m.ResolvedAs(group.objects[j].gid, outs[j])
        invariant forall t :: t in OutcomeTilesets(outs) ==> t.sourceLoaded
        invariant RunState(tileCache, result.blits, err) ==
                  ObjectsRun(engine, loader, group.opacity, st0, group.objects[..], outs)
        invariant result.bounds == old(result.bounds) && old(result.blits) <= result.blits
        invariant forall n :: |old(result.blits)| <= n < |result.blits| ==>
                    result.blits[n].ObjectBlit? && result.blits[n].alpha == Mask(group.opacity)
        invariant visits == old(visits) && drawnObjects == old(drawnObjects)
        invariant forall t :: t in keep ==> t.sourceLoaded && unchanged(t)
        invariant forall g :: m.ResolveError(g) == old(m.ResolveError(g))
      {
        err, outs := DrawObjectsStep(group, k, outs, st0, keep, |old(result.blits)|);
        k := k + 1;
      }
      if err.None? {
        drawnObjects := drawnObjects + group.objects[..];
        visits := visits + [ObjectGroupTarget(group)];
      }
    }

    /** One pass of the loop of `DrawObjects`: object `k`, after the objects
        before it resolved as `outs`; `out` is what its GID resolved to. */
    method DrawObjectsStep(group: ObjectGroup, k: int, ghost outs: seq<Result<LayerTile>>, ghost st0: RunState,
                           ghost keep: set<Tileset>, ghost from: nat)
      returns (err: Option<Error>, ghost outs': seq<Result<LayerTile>>)
      requires 0 <= k < group.objects.Length && |outs| == k
      requires forall j :: 0 <= j < k && group.objects[j].visible && group.objects[j].gid != 0 ==>
                 m.ResolvedAs(group.objects[j].gid, outs[j])
      requires forall t :: t in OutcomeTilesets(outs) ==> t.sourceLoaded
      requires RunState(tileCache, result.blits, None) ==
               ObjectsRun(engine, loader, group.opacity, st0, group.objects[..], outs)
      requires forall t :: t in keep ==> t.sourceLoaded
      requires from <= |result.blits| && forall n :: from <= n < |result.blits| ==>
                 result.blits[n].ObjectBlit? && result.blits[n].alpha == Mask(group.opacity)
      modifies this, m.TilesetRepr()
      ensures |outs'| == k + 1 && outs'[..k] == outs
      ensures forall j :: 0 <= j < k + 1 && group.objects[j].visible && group.objects[j].gid != 0 ==>
                m.ResolvedAs(group.objects[j].gid, outs'[j])
      ensures forall t :: t in OutcomeTilesets(outs') ==> t.sourceLoaded
      ensures RunState(tileCache, result.blits, err) ==
              ObjectsRun(engine, loader, group.opacity, st0, group.objects[..], outs')
      ensures result.bounds == old(result.bounds) && old(result.blits) <= result.blits
      ensures from <= |result.blits| && forall n :: from <= n < |result.blits| ==>
                result.blits[n].ObjectBlit? && result.blits[n].alpha == Mask(group.opacity)
      ensures visits == old(visits) && drawnObjects == old(drawnObjects)
      ensures forall t :: t in keep ==> unchanged(t)
      ensures forall g :: m.ResolveError(g) == old(m.ResolveError(g))
    {
      ghost var out;
      err, out := RenderOneObject(group, group.objects[k]);
      outs' := outs + [out];
      assert outs'[..k] == outs;
      forall j | 0 <= j < k + 1 && group.objects[j].visible && group.objects[j].gid != 0
        ensures m.ResolvedAs(group.objects[j].gid, outs'[j])
      {
        if j < k {
          assert outs'[j] == outs[j];
          assert old(m.ResolvedAs(group.objects[j].gid, outs[j]));
          ghost var r := outs[j];
          if r.Ok? && r.value.Tile? {
            assert r.value.tileset in OutcomeTilesets(outs);
          }
        }
      }
      assert OutcomeTilesets(outs') == OutcomeTilesets(outs) + OutcomeTilesets([out]) by {
        assert forall j :: 0 <= j < k ==> outs'[j] == outs[j];
        assert outs'[k] == [out][0];
      }
      assert ObjectsRun(engine, loader, group.opacity, st0, group.objects[..], outs) ==
             old(RunState(tileCache, result.blits, None));
      ObjectsRunSnoc(engine, loader, group.opacity, st0, group.objects[..], outs, out);
    }

    /** `RenderObjectGroup`: the map object group at `i`. */
    method RenderObjectGroup(i: int) returns (err: Option<Error>, ghost outs: seq<Result<LayerTile>>)
      modifies this, m.TilesetRepr(), ObjectArrays(m.objectGroups)
      ensures i >= |m.objectGroups| ==> err == Some(ErrOutOfBounds)
      ensures i < 0 ==> err.Some? && err.value.Panic?
      ensures !(0 <= i < |m.objectGroups|) ==>
                unchanged(this) && unchanged(m.TilesetRepr()) && unchanged(ObjectArrays(m.objectGroups)) && outs == []
      ensures 0 <= i < |m.objectGroups| ==>
                var group := m.objectGroups[i];
                DrawingOrder(group.objects[..]) &&
                DrawnFrom(m, multiset(old(group.objects[..])), GroupDraw(group.objects[..], outs)) &&
                (err.None? ==> |outs| == group.objects.Length) &&
                RunState(tileCache, result.blits, err) ==
                ObjectsRun(engine, loader, group.opacity, RunState(old(tileCache), old(result.blits), None),
                           group.objects[..], outs) &&
                visits == old(visits) + (if err.None? then [ObjectGroupTarget(group)] else [])
      ensures forall a :: a in ObjectArrays(m.objectGroups) ==> multiset(a[..]) == multiset(old(a[..]))
      ensures result.bounds == old(result.bounds) && old(result.blits) <= result.blits
      ensures forall t :: t in m.TilesetRepr() && old(t.sourceLoaded) ==> unchanged(t)
      ensures forall g :: m.ResolveError(g) == old(m.ResolveError(g))
    {
      outs := [];
      if i >= |m.objectGroups| {
        return Some(ErrOutOfBounds), outs;
      }
      if i < 0 {
        return Some(Panic("index out of range")), outs;
      }
      err, outs := RenderObjects(m.objectGroups[i]);
    }

    /** `RenderGroupObjectGroup`: object group `objectGroupID` of group
        `groupIdx`. */
    method RenderGroupObjectGroup(groupIdx: int, objectGroupID: int)
      returns (err: Option<Error>, ghost outs: seq<Result<LayerTile>>)
      modifies this, m.TilesetRepr(), GroupObjectArrays(m.groups)
      ensures groupIdx >= |m.groups| ==> err == Some(ErrOutOfBounds)
      ensures 0 <= groupIdx < |m.groups| && objectGroupID >= |m.groups[groupIdx].objectGroups| ==> err == Some(ErrOutOfBounds)
      ensures groupIdx < 0 || (0 <= groupIdx < |m.groups| && objectGroupID < 0) ==> err.Some? && err.value.Panic?
      ensures !(0 <= groupIdx < |m.groups| && 0 <= objectGroupID < |m.groups[groupIdx].objectGroups|) ==>
                unchanged(this) && unchanged(m.TilesetRepr()) && unchanged(GroupObjectArrays(m.groups)) && outs == []
      ensures 0 <= groupIdx < |m.groups| && 0 <= objectGroupID < |m.groups[groupIdx].objectGroups| ==>
                var group := m.groups[groupIdx].objectGroups[objectGroupID];
                DrawingOrder(group.objects[..]) &&
                DrawnFrom(m, multiset(old(group.objects[..])), GroupDraw(group.objects[..], outs)) &&
                (err.None? ==> |outs| == group.objects.Length) &&
                RunState(tileCache, result.blits, err) ==
                ObjectsRun(engine, loader, group.opacity, RunState(old(tileCache), old(result.blits), None),
                           group.objects[..], outs) &&
                visits == old(visits) + (if err.None? then [ObjectGroupTarget(group)] else [])
      ensures result.bounds == old(result.bounds) && old(result.blits) <= result.blits
      ensures forall t :: t in m.TilesetRepr() && old(t.sourceLoaded) ==> unchanged(t)
      ensures forall g :: m.ResolveError(g) == old(m.ResolveError(g))
    {
      outs := [];
      if groupIdx >= |m.groups| {
        return Some(ErrOutOfBounds), outs;
      }
      if groupIdx < 0 {
        return Some(Panic("index out of range")), outs;
      }
      var group := m.groups[groupIdx];
      if objectGroupID >= |group.objectGroups| {
        return Some(ErrOutOfBounds), outs;
      }
      if objectGroupID < 0 {
        return Some(Panic("index out of range")), outs;
      }
      assert group.objectGroups[objectGroupID].objects in GroupObjectArrays(m.groups);
      err, outs := RenderObjects(group.objectGroups[objectGroupID]);
    }

    /** `RenderVisibleObjectGroups`: every visible map object group in order,
        stopping at the first error. `draws` records what drawing each group
        saw. */
    method RenderVisibleObjectGroups() returns (err: Option<Error>, ghost draws: seq<GroupDraw>)
      modifies this, m.TilesetRepr(), ObjectArrays(m.objectGroups)
      ensures GroupsDrawnFrom(m, m.objectGroups, old(ObjectContents(m.objectGroups)), draws, err.None?)
      ensures err.None? ==> |draws| == |m.objectGroups|
      ensures RunState(tileCache, result.blits, err) ==
              ObjectGroupsRun(engine, loader, m.objectGroups, draws, RunState(old(tileCache), old(result.blits), None))
      ensures err.None? ==> visits == old(visits) + VisibleObjectGroups(m.objectGroups)
      ensures result.bounds == old(result.bounds) && old(result.blits) <= result.blits
    {
      ghost var contents := ObjectContents(m.objectGroups);
      ghost var st0 := RunState(tileCache, result.blits, None);
      draws := [];
      err := None;
      var i := 0;
      while i < |m.objectGroups| && err.None?
        invariant 0 <= i <= |m.objectGroups| && |draws| == i
        invariant GroupsDrawnFrom(m, m.objectGroups, contents, draws, err.None?)
        invariant forall t :: t in DrawTilesets(draws) ==> t.sourceLoaded
        invariant RunState(tileCache, result.blits, err) == ObjectGroupsRun(engine, loader, m.objectGroups, draws, st0)
        invariant err.None? ==> visits == old(visits) + VisibleObjectGroups(m.objectGroups[..i])
        invariant forall k :: 0 <= k < |m.objectGroups| ==> multiset(m.objectGroups[k].objects[..]) == contents[k]
        invariant result.bounds == old(result.bounds) && old(result.blits) <= result.blits
      {
        ghost var seen := if m.objectGroups[i].visible then [ObjectGroupTarget(m.objectGroups[i])] else [];
        VisibleObjectGroupsSnoc(m.objectGroups, i);
        ghost var v := visits;
        ghost var d;
        err, d := RenderVisibleObjectGroupStep(i, contents, draws, st0);
        draws := draws + [d];
        if err.None? {
          assert visits == old(visits) + VisibleObjectGroups(m.objectGroups[..i + 1]) by {
            assert visits == v + seen;
            AppendAssoc(old(visits), VisibleObjectGroups(m.objectGroups[..i]), seen);
          }
        }
        i := i + 1;
      }
      if err.None? {
        assert m.objectGroups[..i] == m.objectGroups;
      }
    }

    /** One pass of the loop of `RenderVisibleObjectGroups`: object group `i`
        when it is visible, recorded as `d` after the records `draws` of the
        groups before it. */
    method RenderVisibleObjectGroupStep(i: int, ghost contents: seq<multiset<Obj>>, ghost draws: seq<GroupDraw>,
                                        ghost st0: RunState)
      returns (err: Option<Error>, ghost d: GroupDraw)
      requires 0 <= i < |m.objectGroups| && |draws| == i
      requires GroupsDrawnFrom(m, m.objectGroups, contents, draws, true)
      requires forall t :: t in DrawTilesets(draws) ==> t.sourceLoaded
      requires RunState(tileCache, result.blits, None) == ObjectGroupsRun(engine, loader, m.objectGroups, draws, st0)
      requires forall k :: 0 <= k < |m.objectGroups| ==> multiset(m.objectGroups[k].objects[..]) == contents[k]
      modifies this, m.TilesetRepr(), ObjectArrays(m.objectGroups)
      ensures err.None? ==> GroupsDrawnFrom(m, m.objectGroups, contents, draws + [d], true)
      ensures err.Some? ==> GroupsDrawnFrom(m, m.objectGroups, contents, draws + [d], false)
      ensures forall t :: t in DrawTilesets(draws + [d]) ==> t.sourceLoaded
      ensures RunState(tileCache, result.blits, err) == ObjectGroupsRun(engine, loader, m.objectGroups, draws + [d], st0)
      ensures err.None? ==>
                visits == old(visits) + (if m.objectGroups[i].visible then [ObjectGroupTarget(m.objectGroups[i])] else [])
      ensures forall k :: 0 <= k < |m.objectGroups| ==> multiset(m.objectGroups[k].objects[..]) == contents[k]
      ensures result.bounds == old(result.bounds) && old(result.blits) <= result.blits
    {
      d := GroupDraw([], []);
      err := None;
      if m.objectGroups[i].visible {
        err, d := RenderObjectGroupAmong(i, contents, draws);
        assert ObjectGroupsRun(engine, loader, m.objectGroups, draws, st0) == old(RunState(tileCache, result.blits, None));
        forall k | 0 <= k < |m.objectGroups|
          ensures multiset(m.objectGroups[k].objects[..]) == contents[k]
        {
          assert m.objectGroups[k].objects in ObjectArrays(m.objectGroups);
        }
      }
      DrawsSnoc(m, m.objectGroups, contents, draws, d, err.None?);
      ObjectGroupsRunSnoc(engine, loader, m.objectGroups, draws, d, st0);
    }

    /** The visible map object group at `i` drawn after the object groups
        before it, whose records `draws` stay true; the tilesets those records
        read are left unchanged. */
    method RenderObjectGroupAmong(i: int, ghost contents: seq<multiset<Obj>>, ghost draws: seq<GroupDraw>)
      returns (err: Option<Error>, ghost d: GroupDraw)
      requires 0 <= i < |m.objectGroups| && |draws| == i && m.objectGroups[i].visible
      requires GroupsDrawnFrom(m, m.objectGroups, contents, draws, true)
      requires forall t :: t in DrawTilesets(draws) ==> t.sourceLoaded
      requires contents[i] == multiset(m.objectGroups[i].objects[..])
      modifies this, m.TilesetRepr(), ObjectArrays(m.objectGroups)
      ensures GroupsDrawnFrom(m, m.objectGroups, contents, draws, true)
      ensures DrawnFrom(m, contents[i], d) && (err.None? ==> |d.outcomes| == |d.objects|)
      ensures forall t :: t in DrawTilesets(draws) ==> t.sourceLoaded
      ensures RunState(tileCache, result.blits, err) ==
              ObjectsRun(engine, loader, m.objectGroups[i].opacity, RunState(old(tileCache), old(result.blits), None),
                         d.objects, d.outcomes)
      ensures err.None? ==> visits == old(visits) + [ObjectGroupTarget(m.objectGroups[i])]
      ensures forall a :: a in ObjectArrays(m.objectGroups) ==> multiset(a[..]) == multiset(old(a[..]))
      ensures result.bounds == old(result.bounds) && old(result.blits) <= result.blits
      ensures unchanged(DrawTilesets(draws))
    {
      ghost var outs;
      assert m.objectGroups[i].objects in ObjectArrays(m.objectGroups);
      err, outs := RenderObjectGroup(i);
      d := GroupDraw(m.objectGroups[i].objects[..], outs);
      forall k | 0 <= k < |draws| && m.objectGroups[k].visible
        ensures DrawnFrom(m, contents[k], draws[k])
      {
        ghost var dk := draws[k];
        assert forall t :: t in OutcomeTilesets(dk.outcomes) ==> t in DrawTilesets(draws);
        forall j | 0 <= j < |dk.outcomes| && dk.objects[j].visible && dk.objects[j].gid != 0
          ensures m.ResolvedAs(dk.objects[j].gid, dk.outcomes[j])
        {
          assert old(m.ResolvedAs(dk.objects[j].gid, dk.outcomes[j]));
          ghost var r := dk.outcomes[j];
          if r.Ok? && r.value.Tile? {
            assert r.value.tileset in OutcomeTilesets(dk.outcomes);
          }
        }
      }
    }

    /** `_renderGroup`: the group's visible layers, then its visible object
        groups; nested groups are not drawn. `draws` records what drawing each
        object group saw. */
    method RenderGroupContents(g: Group) returns (err: Option<Error>, ghost draws: seq<GroupDraw>)
      modifies this, m.TilesetRepr(), ObjectArrays(g.objectGroups)
      ensures GroupsDrawnFrom(m, g.objectGroups, old(ObjectContents(g.objectGroups)), draws, err.None?)
      ensures err.None? ==> |draws| == |g.objectGroups|
      ensures var mid := old(LayersRun(engine, loader, m.orientation, m.renderOrder, m.width, m.height, g.layers,
                                       RunState(tileCache, result.blits, None)));
              if mid.err.Some? then RunState(tileCache, result.blits, err) == mid && draws == []
              else RunState(tileCache, result.blits, err) == ObjectGroupsRun(engine, loader, g.objectGroups, draws, mid)
      ensures err.None? ==> visits == old(visits) + GroupTargets(g)
      ensures forall t :: t in DrawTilesets(draws) ==> t.sourceLoaded
      ensures forall a :: a in ObjectArrays(g.objectGroups) ==> multiset(a[..]) == multiset(old(a[..]))
      ensures result.bounds == old(result.bounds) && old(result.blits) <= result.blits
      ensures forall t :: t in m.TilesetRepr() && old(t.sourceLoaded) ==> unchanged(t)
      ensures forall g :: m.ResolveError(g) == old(m.ResolveError(g))
    {
      draws := [];
      err := RenderGroupLayers(g);
      assert unchanged(LayersTilesets(g.layers)) && unchanged(m.TilesetRepr()) && unchanged(ObjectArrays(g.objectGroups));
      ghost var mid := RunState(tileCache, result.blits, err);
      assert mid == old(LayersRun(engine, loader, m.orientation, m.renderOrder, m.width, m.height, g.layers,
                                  RunState(tileCache, result.blits, None)));
      if err.Some? {
        assert GroupsDrawnFrom(m, g.objectGroups, old(ObjectContents(g.objectGroups)), draws, false);
        return;
      }
      err, draws := RenderGroupObjectGroups(g);
      if err.None? {
        AppendAssoc(old(visits), VisibleLayers(g.layers), VisibleObjectGroups(g.objectGroups));
      }
    }

    /** The first loop of `_renderGroup`: the group's visible layers. */
    method RenderGroupLayers(g: Group) returns (err: Option<Error>)
      modifies this
      ensures RunState(tileCache, result.blits, err) ==
              LayersRun(engine, loader, m.orientation, m.renderOrder, m.width, m.height, g.layers,
                        RunState(old(tileCache), old(result.blits), None))
      ensures err.None? ==> visits == old(visits) + VisibleLayers(g.layers)
      ensures result.bounds == old(result.bounds) && old(result.blits) <= result.blits
      ensures drawnObjects == old(drawnObjects)
    {
      ghost var final := LayersRun(engine, loader, m.orientation, m.renderOrder, m.width, m.height, g.layers,
                                   RunState(tileCache, result.blits, None));
      err := None;
      var i := 0;
      while i < |g.layers| && err.None?
        invariant 0 <= i <= |g.layers|
        invariant err.None? ==> LayersRun(engine, loader, m.orientation, m.renderOrder, m.width, m.height, g.layers[i..],
                                          RunState(tileCache, result.blits, None)) == final
        invariant err.Some? ==> RunState(tileCache, result.blits, err) == final
        invariant err.None? ==> visits == old(visits) + VisibleLayers(g.layers[..i])
        invariant result.bounds == old(result.bounds) && old(result.blits) <= result.blits
        invariant drawnObjects == old(drawnObjects)
      {
        VisibleLayersSnoc(g.layers, i);
        err := RenderGroupLayerStep(g, i, final);
        i := i + 1;
      }
      if err.None? {
        assert g.layers[..i] == g.layers;
      }
      assert unchanged(LayersTilesets(g.layers));
    }

    /** One pass of the first loop of `_renderGroup`: the group's layer `i`
        when it is visible, after which the rest of the layers still lead to
        `final`. */
    method RenderGroupLayerStep(g: Group, i: int, ghost final: RunState) returns (err: Option<Error>)
      requires 0 <= i < |g.layers|
      requires LayersRun(engine, loader, m.orientation, m.renderOrder, m.width, m.height, g.layers[i..],
                         RunState(tileCache, result.blits, None)) == final
      modifies this
      ensures err.None? ==> LayersRun(engine, loader, m.orientation, m.renderOrder, m.width, m.height, g.layers[i + 1..],
                                      RunState(tileCache, result.blits, None)) == final
      ensures err.Some? ==> RunState(tileCache, result.blits, err) == final
      ensures err.None? ==> visits == old(visits) + if g.layers[i].visible then [LayerTarget(g.layers[i])] else []
      ensures result.bounds == old(result.bounds) && old(result.blits) <= result.blits
      ensures drawnObjects == old(drawnObjects)
    {
      ghost var cur := RunState(tileCache, result.blits, None);
      var l := g.layers[i];
      ghost var next := if l.visible then LayerRun(engine, loader, m.orientation, m.renderOrder, m.width, m.height,
                                                   l.tiles, l.opacity, cur) else cur;
      assert g.layers[i..][0] == l && g.layers[i..][1..] == g.layers[i + 1..];
      assert LayersRun(engine, loader, m.orientation, m.renderOrder, m.width, m.height, g.layers[i + 1..], next) == final;
      err := None;
      if l.visible {
        label call:
        err := RenderLayerTiles(l);
        assert unchanged@call(l) && unchanged@call(Tilesets(l.tiles));
        assert unchanged@call(LayersTilesets(g.layers[i + 1..]));
        assert RunState(tileCache, result.blits, err) == next;
      }
    }

    /** The second loop of `_renderGroup`: the group's visible object groups. */
    method RenderGroupObjectGroups(g: Group) returns (err: Option<Error>, ghost draws: seq<GroupDraw>)
      modifies this, m.TilesetRepr(), ObjectArrays(g.objectGroups)
      ensures GroupsDrawnFrom(m, g.objectGroups, old(ObjectContents(g.objectGroups)), draws, err.None?)
      ensures err.None? ==> |draws| == |g.objectGroups|
      ensures RunState(tileCache, result.blits, err) ==
              ObjectGroupsRun(engine, loader, g.objectGroups, draws, RunState(old(tileCache), old(result.blits), None))
      ensures err.None? ==> visits == old(visits) + VisibleObjectGroups(g.objectGroups)
      ensures forall t :: t in DrawTilesets(draws) ==> t.sourceLoaded
      ensures forall a :: a in ObjectArrays(g.objectGroups) ==> multiset(a[..]) == multiset(old(a[..]))
      ensures result.bounds == old(result.bounds) && old(result.blits) <= result.blits
      ensures forall t :: t in m.TilesetRepr() && old(t.sourceLoaded) ==> unchanged(t)
      ensures forall g :: m.ResolveError(g) == old(m.ResolveError(g))
    {
      ghost var contents := ObjectContents(g.objectGroups);
      err, draws := RenderGroupObjectGroupsFrom(g, contents);
      forall a | a in ObjectArrays(g.objectGroups) ensures multiset(a[..]) == multiset(old(a[..])) {
        var k := ObjectArrayIndex(g.objectGroups, a);
      }
    }

    /** The loop of `RenderGroupObjectGroups`, with the objects of each object
        group held as `contents` throughout. */
    method RenderGroupObjectGroupsFrom(g: Group, ghost contents: seq<multiset<Obj>>)
      returns (err: Option<Error>, ghost draws: seq<GroupDraw>)
      requires |contents| == |g.objectGroups|
      requires forall k :: 0 <= k < |g.objectGroups| ==> multiset(g.objectGroups[k].objects[..]) == contents[k]
      modifies this, m.TilesetRepr(), ObjectArrays(g.objectGroups)
      ensures GroupsDrawnFrom(m, g.objectGroups, contents, draws, err.None?)
      ensures err.None? ==> |draws| == |g.objectGroups|
      ensures RunState(tileCache, result.blits, err) ==
              ObjectGroupsRun(engine, loader, g.objectGroups, draws, RunState(old(tileCache), old(result.blits), None))
      ensures err.None? ==> visits == old(visits) + VisibleObjectGroups(g.objectGroups)
      ensures forall t :: t in DrawTilesets(draws) ==> t.sourceLoaded
      ensures forall k :: 0 <= k < |g.objectGroups| ==> multiset(g.objectGroups[k].objects[..]) == contents[k]
      ensures result.bounds == old(result.bounds) && old(result.blits) <= result.blits
      ensures forall t :: t in m.TilesetRepr() && old(t.sourceLoaded) ==> unchanged(t)
      ensures forall g :: m.ResolveError(g) == old(m.ResolveError(g))
    {
      ghost var st0 := RunState(tileCache, result.blits, None);
      ghost var keep := set t | t in m.TilesetRepr() && t.sourceLoaded;
      assert forall t :: t in m.TilesetRepr() && old(t.sourceLoaded) ==> t in keep;
      draws := [];
      err := None;
      var j := 0;
      while j < |g.objectGroups| && err.None?
        invariant 0 <= j <= |g.objectGroups| && |draws| == j
        invariant GroupsDrawnFrom(m, g.objectGroups, contents, draws, err.None?)
        invariant forall t :: t in DrawTilesets(draws) ==> t.sourceLoaded
        invariant RunState(tileCache, result.blits, err) == ObjectGroupsRun(engine, loader, g.objectGroups, draws, st0)
        invariant err.None? ==> visits == old(visits) + VisibleObjectGroups(g.objectGroups[..j])
        invariant forall k :: 0 <= k < |g.objectGroups| ==> multiset(g.objectGroups[k].objects[..]) == contents[k]
        invariant result.bounds == old(result.bounds) && old(result.blits) <= result.blits
        invariant forall t :: t in keep ==> t.sourceLoaded && unchanged(t)
        invariant forall g :: m.ResolveError(g) == old(m.ResolveError(g))
      {
        ghost var seen := if g.objectGroups[j].visible then [ObjectGroupTarget(g.objectGroups[j])] else [];
        VisibleObjectGroupsSnoc(g.objectGroups, j);
        ghost var v := visits;
        ghost var d;
        err, d := RenderGroupObjectGroupStep(g, j, contents, draws, st0, keep);
        draws := draws + [d];
        if err.None? {
          assert visits == old(visits) + VisibleObjectGroups(g.objectGroups[..j + 1]) by {
            assert visits == v + seen;
            AppendAssoc(old(visits), VisibleObjectGroups(g.objectGroups[..j]), seen);
          }
        }
        j := j + 1;
      }
      if err.None? {
        assert g.objectGroups[..j] == g.objectGroups;
      }
    }

    /** One pass of the loop of `_renderGroup` over the group's object
        groups: object group `j` when it is visible, recorded as `d` after
        the records `draws` of the object groups before it. The tilesets of
        `keep` are loaded and stay unchanged. */
    method RenderGroupObjectGroupStep(g: Group, j: int, ghost contents: seq<multiset<Obj>>, ghost draws: seq<GroupDraw>,
                                      ghost st0: RunState, ghost keep: set<Tileset>)
      returns (err: Option<Error>, ghost d: GroupDraw)
      requires 0 <= j < |g.objectGroups| && |draws| == j
      requires GroupsDrawnFrom(m, g.objectGroups, contents, draws, true)
      requires forall t :: t in DrawTilesets(draws) ==> t.sourceLoaded
      requires RunState(tileCache, result.blits, None) == ObjectGroupsRun(engine, loader, g.objectGroups, draws, st0)
      requires forall k :: 0 <= k < |g.objectGroups| ==> multiset(g.objectGroups[k].objects[..]) == contents[k]
      requires forall t :: t in keep ==> t.sourceLoaded
      modifies this, m.TilesetRepr(), ObjectArrays(g.objectGroups)
      ensures err.None? ==> GroupsDrawnFrom(m, g.objectGroups, contents, draws + [d], true)
      ensures err.Some? ==> GroupsDrawnFrom(m, g.objectGroups, contents, draws + [d], false)
      ensures forall t :: t in DrawTilesets(draws + [d]) ==> t.sourceLoaded
      ensures RunState(tileCache, result.blits, err) == ObjectGroupsRun(engine, loader, g.objectGroups, draws + [d], st0)
      ensures err.None? ==>
                visits == old(visits) + (if g.objectGroups[j].visible then [ObjectGroupTarget(g.objectGroups[j])] else [])
      ensures forall k :: 0 <= k < |g.objectGroups| ==> multiset(g.objectGroups[k].objects[..]) == contents[k]
      ensures result.bounds == old(result.bounds) && old(result.blits) <= result.blits
      ensures forall t :: t in keep ==> unchanged(t)
      ensures forall g :: m.ResolveError(g) == old(m.ResolveError(g))
    {
      d := GroupDraw([], []);
      err := None;
      if g.objectGroups[j].visible {
        err, d := RenderObjectsAmong(g, j, contents, draws, keep);
        assert ObjectGroupsRun(engine, loader, g.objectGroups, draws, st0) == old(RunState(tileCache, result.blits, None));
        forall k | 0 <= k < |g.objectGroups|
          ensures multiset(g.objectGroups[k].objects[..]) == contents[k]
        {
          assert g.objectGroups[k].objects in ObjectArrays(g.objectGroups);
        }
      }
      DrawsSnoc(m, g.objectGroups, contents, draws, d, err.None?);
      ObjectGroupsRunSnoc(engine, loader, g.objectGroups, draws, d, st0);
    }

    /** The group's visible object group at `j` drawn after the object groups
        before it, whose records `draws` stay true; the tilesets those records
        read and the loaded tilesets of `keep` are left unchanged. */
    method RenderObjectsAmong(g: Group, j: int, ghost contents: seq<multiset<Obj>>, ghost draws: seq<GroupDraw>,
                              ghost keep: set<Tileset>)
      returns (err: Option<Error>, ghost d: GroupDraw)
      requires 0 <= j < |g.objectGroups| && |draws| == j && g.objectGroups[j].visible
      requires GroupsDrawnFrom(m, g.objectGroups, contents, draws, true)
      requires forall t :: t in DrawTilesets(draws) ==> t.sourceLoaded
      requires contents[j] == multiset(g.objectGroups[j].objects[..])
      requires forall t :: t in keep ==> t.sourceLoaded
      modifies this, m.TilesetRepr(), g.objectGroups[j].objects
      ensures GroupsDrawnFrom(m, g.objectGroups, contents, draws, true)
      ensures DrawnFrom(m, contents[j], d) && (err.None? ==> |d.outcomes| == |d.objects|)
      ensures forall t :: t in DrawTilesets(draws) ==> t.sourceLoaded
      ensures RunState(tileCache, result.blits, err) ==
              ObjectsRun(engine, loader, g.objectGroups[j].opacity, RunState(old(tileCache), old(result.blits), None),
                         d.objects, d.outcomes)
      ensures err.None? ==> visits == old(visits) + [ObjectGroupTarget(g.objectGroups[j])]
      ensures multiset(g.objectGroups[j].objects[..]) == contents[j]
      ensures result.bounds == old(result.bounds) && old(result.blits) <= result.blits
      ensures unchanged(DrawTilesets(draws)) && forall t :: t in keep ==> unchanged(t)
      ensures forall g :: m.ResolveError(g) == old(m.ResolveError(g))
    {
      var group := g.objectGroups[j];
      ghost var outs;
      err, outs := RenderObjects(group);
      d := GroupDraw(group.objects[..], outs);
      forall k | 0 <= k < |draws| && g.objectGroups[k].visible
        ensures DrawnFrom(m, contents[k], draws[k])
      {
        ghost var dk := draws[k];
        assert forall t :: t in OutcomeTilesets(dk.outcomes) ==> t in DrawTilesets(draws);
        forall n | 0 <= n < |dk.outcomes| && dk.objects[n].visible && dk.objects[n].gid != 0
          ensures m.ResolvedAs(dk.objects[n].gid, dk.outcomes[n])
        {
          assert old(m.ResolvedAs(dk.objects[n].gid, dk.outcomes[n]));
          ghost var r := dk.outcomes[n];
          if r.Ok? && r.value.Tile? {
            assert r.value.tileset in OutcomeTilesets(dk.outcomes);
          }
        }
      }
    }

    /** `RenderGroup`: the contents of the group at `groupIdx`. */
    method RenderGroup(groupIdx: int) returns (err: Option<Error>, ghost draws: seq<GroupDraw>)
      modifies this, m.TilesetRepr(), GroupObjectArrays(m.groups)
      ensures groupIdx >= |m.groups| ==> err == Some(ErrOutOfBounds)
      ensures groupIdx < 0 ==> err.Some? && err.value.Panic?
      ensures !(0 <= groupIdx < |m.groups|) ==>
                unchanged(this) && unchanged(m.TilesetRepr()) && unchanged(GroupObjectArrays(m.groups)) && draws == []
      ensures 0 <= groupIdx < |m.groups| ==>
                var g := m.groups[groupIdx];
                var mid := old(LayersRun(engine, loader, m.orientation, m.renderOrder, m.width, m.height, g.layers,
                                         RunState(tileCache, result.blits, None)));
                if mid.err.Some? then RunState(tileCache, result.blits, err) == mid && draws == []
                else
                  GroupsDrawnFrom(m, g.objectGroups, old(ObjectContents(g.objectGroups)), draws, err.None?) &&
                  (err.None? ==> |draws| == |g.objectGroups| && visits == old(visits) + GroupTargets(g)) &&
                  RunState(tileCache, result.blits, err) == ObjectGroupsRun(engine, loader, g.objectGroups, draws, mid)
      ensures result.bounds == old(result.bounds) && old(result.blits) <= result.blits
    {
      draws := [];
      if groupIdx >= |m.groups| {
        return Some(ErrOutOfBounds), draws;
      }
      if groupIdx < 0 {
        return Some(Panic("index out of range")), draws;
      }
      assert ObjectArrays(m.groups[groupIdx].objectGroups) <= GroupObjectArrays(m.groups);
      err, draws := RenderGroupContents(m.groups[groupIdx]);
    }

    /** `RenderVisibleGroups`: the contents of every visible top-level group
        in order, stopping at the first error. `draws` records, group by
        group, what drawing each object group saw. */
    method RenderVisibleGroups() returns (err: Option<Error>, ghost draws: seq<seq<GroupDraw>>)
      modifies this, m.TilesetRepr(), GroupObjectArrays(m.groups)
      ensures GroupsRecorded(m, m.groups, old(GroupContents(m.groups)), draws, err.None?)
      ensures err.None? ==> |draws| == |m.groups|
      ensures old(GroupsLoaded(m.groups)) ==>
                RunState(tileCache, result.blits, err) ==
                GroupsRun(engine, loader, m.orientation, m.renderOrder, m.width, m.height, m.groups, draws,
                          RunState(old(tileCache), old(result.blits), None))
      ensures err.None? ==> visits == old(visits) + VisibleGroups(m.groups)
      ensures result.bounds == old(result.bounds) && old(result.blits) <= result.blits
    {
      ghost var loaded := GroupsLoaded(m.groups);
      ghost var contents := GroupContents(m.groups);
      ghost var st0 := RunState(tileCache, result.blits, None);
      draws := [];
      var i := 0;
      while i < |m.groups|
        invariant 0 <= i <= |m.groups| && |draws| == i
        invariant GroupsRecorded(m, m.groups, contents, draws, true)
        invariant forall t :: t in GroupsTilesets([], draws) ==> t.sourceLoaded
        invariant loaded ==> GroupsLoaded(m.groups)
        invariant loaded ==> RunState(tileCache, result.blits, None) ==
                             GroupsRun(engine, loader, m.orientation, m.renderOrder, m.width, m.height, m.groups, draws, st0)
        invariant visits == old(visits) + VisibleGroups(m.groups[..i])
        invariant forall k :: 0 <= k < |m.groups| ==> ObjectContents(m.groups[k].objectGroups) == contents[k]
        invariant result.bounds == old(result.bounds) && old(result.blits) <= result.blits
      {
        ghost var seen := if m.groups[i].visible then GroupTargets(m.groups[i]) else [];
        VisibleGroupsSnoc(m.groups, i);
        ghost var v := visits;
        ghost var d;
        assert ObjectArrays(m.groups[i].objectGroups) <= GroupObjectArrays(m.groups);
        err, d := RenderVisibleGroupStep(i, contents, draws, st0, loaded);
        draws := draws + [d];
        if err.Some? {
          return;
        }
        assert visits == old(visits) + VisibleGroups(m.groups[..i + 1]) by {
          assert visits == v + seen;
          AppendAssoc(old(visits), VisibleGroups(m.groups[..i]), seen);
        }
        i := i + 1;
      }
      assert m.groups[..i] == m.groups;
      return None, draws;
    }

    /** One pass of the loop of `RenderVisibleGroups`: the group at `i` when
        it is visible, recorded as `d` after the records `draws` of the
        groups before it. */
    method RenderVisibleGroupStep(i: int, ghost contents: seq<seq<multiset<Obj>>>, ghost draws: seq<seq<GroupDraw>>,
                                  ghost st0: RunState, ghost loaded: bool)
      returns (err: Option<Error>, ghost d: seq<GroupDraw>)
      requires 0 <= i < |m.groups| && |draws| == i
      requires GroupsRecorded(m, m.groups, contents, draws, true)
      requires forall t :: t in GroupsTilesets([], draws) ==> t.sourceLoaded
      requires loaded ==> GroupsLoaded(m.groups)
      requires loaded ==> RunState(tileCache, result.blits, None) ==
                          GroupsRun(engine, loader, m.orientation, m.renderOrder, m.width, m.height, m.groups, draws, st0)
      requires forall k :: 0 <= k < |m.groups| ==> ObjectContents(m.groups[k].objectGroups) == contents[k]
      modifies this, m.TilesetRepr(), ObjectArrays(m.groups[i].objectGroups)
      ensures GroupsRecorded(m, m.groups, contents, draws + [d], err.None?)
      ensures forall t :: t in GroupsTilesets([], draws + [d]) ==> t.sourceLoaded
      ensures loaded ==> GroupsLoaded(m.groups)
      ensures loaded ==> RunState(tileCache, result.blits, err) ==
                         GroupsRun(engine, loader, m.orientation, m.renderOrder, m.width, m.height, m.groups,
                                   draws + [d], st0)
      ensures err.None? ==> visits == old(visits) + (if m.groups[i].visible then GroupTargets(m.groups[i]) else [])
      ensures forall k :: 0 <= k < |m.groups| ==> ObjectContents(m.groups[k].objectGroups) == contents[k]
      ensures result.bounds == old(result.bounds) && old(result.blits) <= result.blits
    {
      d := [];
      err := None;
      if m.groups[i].visible {
        ghost var read := if loaded then GroupsTilesets(m.groups, draws) else {};
        assert forall t :: t in read ==> t.sourceLoaded;
        err, d := RenderGroupKeeping(i, contents, draws, read);
        if loaded {
          assert unchanged(GroupLayers(m.groups));
          assert GroupsTilesets(m.groups, draws) == read;
          assert GroupsRun(engine, loader, m.orientation, m.renderOrder, m.width, m.height, m.groups, draws, st0) ==
                 old(RunState(tileCache, result.blits, None));
          assert unchanged(LayersTilesets(m.groups[i].layers));
          assert LayersRun(engine, loader, m.orientation, m.renderOrder, m.width, m.height, m.groups[i].layers,
                           old(RunState(tileCache, result.blits, None))) ==
                 old(LayersRun(engine, loader, m.orientation, m.renderOrder, m.width, m.height, m.groups[i].layers,
                               RunState(tileCache, result.blits, None)));
        }
      }
      GroupsRecordedSnoc(m, m.groups, contents, draws, d, err.None?);
      if loaded {
        GroupsRunSnoc(engine, loader, m.orientation, m.renderOrder, m.width, m.height, m.groups, draws, d, st0);
      }
    }

    /** `RenderGroupAmong`, after which every group of the map still holds
        the objects `contents` says, each object group as a permutation. */
    method RenderGroupKeeping(i: int, ghost contents: seq<seq<multiset<Obj>>>, ghost draws: seq<seq<GroupDraw>>,
                              ghost read: set<Tileset>)
      returns (err: Option<Error>, ghost d: seq<GroupDraw>)
      requires 0 <= i < |m.groups| && |draws| == i && m.groups[i].visible
      requires GroupsRecorded(m, m.groups, contents, draws, true)
      requires forall t :: t in GroupsTilesets([], draws) ==> t.sourceLoaded
      requires forall k :: 0 <= k < |m.groups| ==> ObjectContents(m.groups[k].objectGroups) == contents[k]
      requires forall t :: t in read ==> t.sourceLoaded
      modifies this, m.TilesetRepr(), ObjectArrays(m.groups[i].objectGroups)
      ensures GroupsRecorded(m, m.groups, contents, draws, true)
      ensures GroupsDrawnFrom(m, m.groups[i].objectGroups, contents[i], d, err.None?)
      ensures err.None? ==> |d| == |m.groups[i].objectGroups|
      ensures forall t :: t in GroupsTilesets([], draws) ==> t.sourceLoaded
      ensures forall t :: t in DrawTilesets(d) ==> t.sourceLoaded
      ensures var mid := old(LayersRun(engine, loader, m.orientation, m.renderOrder, m.width, m.height, m.groups[i].layers,
                                       RunState(tileCache, result.blits, None)));
              if mid.err.Some? then RunState(tileCache, result.blits, err) == mid && d == []
              else RunState(tileCache, result.blits, err) == ObjectGroupsRun(engine, loader, m.groups[i].objectGroups, d, mid)
      ensures err.None? ==> visits == old(visits) + GroupTargets(m.groups[i])
      ensures forall k :: 0 <= k < |m.groups| ==> ObjectContents(m.groups[k].objectGroups) == contents[k]
      ensures result.bounds == old(result.bounds) && old(result.blits) <= result.blits
      ensures unchanged(read)
    {
      assert ObjectArrays(m.groups[i].objectGroups) <= GroupObjectArrays(m.groups);
      err, d := RenderGroupAmong(i, contents, draws, read);
      forall k | 0 <= k < |m.groups|
        ensures ObjectContents(m.groups[k].objectGroups) == contents[k]
      {
        ghost var ogs := m.groups[k].objectGroups;
        forall j | 0 <= j < |ogs| ensures multiset(ogs[j].objects[..]) == old(multiset(ogs[j].objects[..])) {
          if ogs[j].objects !in ObjectArrays(m.groups[i].objectGroups) {
            assert ogs[j].objects in GroupObjectArrays(m.groups);
          }
        }
      }
    }

    /** The contents of the visible group at `i` drawn after the groups
        before it, whose records `draws` stay true; the tilesets of `read`,
        all loaded, are left unchanged. */
    method RenderGroupAmong(i: int, ghost contents: seq<seq<multiset<Obj>>>, ghost draws: seq<seq<GroupDraw>>,
                            ghost read: set<Tileset>)
      returns (err: Option<Error>, ghost d: seq<GroupDraw>)
      requires 0 <= i < |m.groups| && |draws| == i && m.groups[i].visible
      requires GroupsRecorded(m, m.groups, contents, draws, true)
      requires forall t :: t in GroupsTilesets([], draws) ==> t.sourceLoaded
      requires contents[i] == ObjectContents(m.groups[i].objectGroups)
      requires forall t :: t in read ==> t.sourceLoaded
      modifies this, m.TilesetRepr(), ObjectArrays(m.groups[i].objectGroups)
      ensures GroupsRecorded(m, m.groups, contents, draws, true)
      ensures GroupsDrawnFrom(m, m.groups[i].objectGroups, contents[i], d, err.None?)
      ensures err.None? ==> |d| == |m.groups[i].objectGroups|
      ensures forall t :: t in GroupsTilesets([], draws) ==> t.sourceLoaded
      ensures forall t :: t in DrawTilesets(d) ==> t.sourceLoaded
      ensures var mid := old(LayersRun(engine, loader, m.orientation, m.renderOrder, m.width, m.height, m.groups[i].layers,
                                       RunState(tileCache, result.blits, None)));
              if mid.err.Some? then RunState(tileCache, result.blits, err) == mid && d == []
              else RunState(tileCache, result.blits, err) == ObjectGroupsRun(engine, loader, m.groups[i].objectGroups, d, mid)
      ensures err.None? ==> visits == old(visits) + GroupTargets(m.groups[i])
      ensures forall a :: a in ObjectArrays(m.groups[i].objectGroups) ==> multiset(a[..]) == multiset(old(a[..]))
      ensures result.bounds == old(result.bounds) && old(result.blits) <= result.blits
      ensures unchanged(read)
    {
      err, d := RenderGroupContents(m.groups[i]);
      // the records of the groups before stay true
      forall k, j | 0 <= k < i && m.groups[k].visible && 0 <= j < |draws[k]| && m.groups[k].objectGroups[j].visible
        ensures DrawnFrom(m, contents[k][j], draws[k][j])
      {
        ghost var dj := draws[k][j];
        forall n | 0 <= n < |dj.outcomes| && dj.objects[n].visible && dj.objects[n].gid != 0
          ensures m.ResolvedAs(dj.objects[n].gid, dj.outcomes[n])
        {
          assert old(m.ResolvedAs(dj.objects[n].gid, dj.outcomes[n]));
          ghost var r := dj.outcomes[n];
          if r.Ok? && r.value.Tile? {
            assert r.value.tileset in OutcomeTilesets(dj.outcomes);
          }
        }
      }
    }
  }

  /** `NewRendererWithFileSystem`: a renderer with the engine of the map's
      orientation, initialised and cleared; any orientation other than
      orthogonal and hexagonal is refused. The file system is the loader. */
  method NewRendererWithFileSystem(m: Map, loader: ImageLoader) returns (r: Result<Renderer>)
    ensures r.Err? <==> EngineFor(m).None?
    ensures r.Err? ==> r.error == ErrUnsupportedOrientation
    ensures r.Ok? ==> fresh(r.value) && r.value.m == m && r.value.loader == loader &&
                      r.value.engine == EngineFor(m).value &&
                      r.value.result == Raster(EngineFor(m).value.FinalImageSize(), []) &&
                      r.value.tileCache == map[]
  {
    var engine: Engine;
    if m.orientation == "orthogonal" {
      engine := OrthogonalEngine(GridOf(m));
    } else if m.orientation == "hexagonal" {
      engine := HexagonalEngine(GridOf(m));
    } else {
      return Err(ErrUnsupportedOrientation);
    }
    var renderer := new Renderer(m, engine, loader);
    return Ok(renderer);
  }
}

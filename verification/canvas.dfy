/** What the renderer works on: the map grid an engine is initialised with,
    images as symbolic values (the pixel operations are not modelled, only which
    operations were applied in which order), and the result raster as its
    bounds plus the log of blits drawn into it. */
module Canvas {
  import opened Errors
  import opened Geometry
  import Tiled

  /** The map fields a render engine reads after `Init`. */
  datatype Grid = Grid(width: int, height: int, tileWidth: int, tileHeight: int, staggerAxis: Tiled.StaggerAxis)

  /** The `imaging` transforms applied to tile images. `Rotate90` and
      `Rotate270` turn counter-clockwise by that many degrees. */
  datatype Transform = FlipH | FlipV | Rotate90 | Rotate270

  /** An image, by the operations that produced it. */
  datatype Image =
    | Decoded(file: string, width: int, height: int)    // `image.Decode` of a file
    | Cropped(src: Image, rect: Rect)                    // `imaging.Crop`
    | Turned(src: Image, t: Transform)                   // `imaging.FlipH`, `Rotate270`, ...
    | Resized(src: Image, width: int, height: int)       // `imaging.Resize`, nearest neighbour
    | Rotated(src: Image, degrees: int)                  // `imaging.Rotate` by minus the object rotation

  /** The width and height of an image whose bounds start at (0, 0), when the
      model knows them. `imaging.Resize` gives an empty image for a negative
      target size, for a zero target size, and for an empty source; a
      resize with one zero side keeps the aspect ratio in floating point, and
      a rotation by other than 0 degrees is computed in floating point, so
      both are left unknown, as is a resize of a source of unknown size. */
  function Size(img: Image): Option<(int, int)>
  {
    match img
    case Decoded(_, w, h) => Some((w, h))
    case Cropped(src, rect) =>
      (match Size(src)
       case None => None
       case Some(wh) =>
         var r := rect.Intersect(Rect(0, 0, wh.0, wh.1));
         if r.IsEmpty() then Some((0, 0)) else Some((r.Dx(), r.Dy())))
    case Turned(src, t) =>
      (match Size(src)
       case None => None
       case Some(wh) => Some(Dims(t, wh.0, wh.1)))
    case Resized(src, w, h) =>
      if w < 0 || h < 0 || (w == 0 && h == 0) then Some((0, 0))
      else
        (match Size(src)
         case None => None
         case Some(wh) =>
           if wh.0 <= 0 || wh.1 <= 0 then Some((0, 0))
           else if w > 0 && h > 0 then Some((w, h))
           else None)
    case Rotated(src, deg) => if deg == 0 then Size(src) else None
  }

  /** The image is known to have no pixels. */
  predicate Blank(img: Image)
  {
    Size(img).Some? && (Size(img).value.0 <= 0 || Size(img).value.1 <= 0)
  }

  /** The image is known to have pixels. */
  predicate HasPixels(img: Image)
  {
    Size(img).Some? && Size(img).value.0 > 0 && Size(img).value.1 > 0
  }

  /** Cropping a decoded image to a rectangle inside it gives an image of the
      rectangle's size. */
  lemma CropInside(file: string, w: int, h: int, rect: Rect)
    requires 0 <= rect.minX < rect.maxX <= w && 0 <= rect.minY < rect.maxY <= h
    ensures Size(Cropped(Decoded(file, w, h), rect)) == Some((rect.Dx(), rect.Dy()))
  {
  }

  /** The size of the result of one transform. */
  function Dims(t: Transform, w: int, h: int): (int, int)
  {
    if t == Rotate90 || t == Rotate270 then (h, w) else (w, h)
  }

  /** The source pixel that pixel (x, y) of the result of `t` is copied from,
      for a source of `w` by `h` pixels. */
  function Back(t: Transform, w: int, h: int, x: int, y: int): (int, int)
  {
    match t
    case FlipH => (w - 1 - x, y)
    case FlipV => (x, h - 1 - y)
    case Rotate90 => (w - 1 - y, x)
    case Rotate270 => (y, h - 1 - x)
  }

  /** Apply the transforms in order. */
  function ApplySteps(img: Image, steps: seq<Transform>): Image
    decreases |steps|
  {
    if |steps| == 0 then img else ApplySteps(Turned(img, steps[0]), steps[1..])
  }

  /** The size after applying `steps` to a `w` by `h` image. */
  function StepsDims(steps: seq<Transform>, w: int, h: int): (int, int)
    decreases |steps|
  {
    if |steps| == 0 then (w, h)
    else var d := Dims(steps[0], w, h); StepsDims(steps[1..], d.0, d.1)
  }

  /** The source pixel that pixel (x, y) of the result of `steps` is copied
      from. */
  function StepsBack(steps: seq<Transform>, w: int, h: int, x: int, y: int): (int, int)
    decreases |steps|
  {
    if |steps| == 0 then (x, y)
    else
      var d := Dims(steps[0], w, h);
      var p := StepsBack(steps[1..], d.0, d.1, x, y);
      Back(steps[0], w, h, p.0, p.1)
  }

  /** Applying `a` and then `b` moves pixels as `b` after `a`: the size is
      that of `b` applied to the size after `a`, and a pixel of the result is
      traced back through `b` and then through `a`. */
  lemma {:induction false} StepsAppend(a: seq<Transform>, b: seq<Transform>, w: int, h: int, x: int, y: int)
    ensures StepsDims(a + b, w, h) == (var d := StepsDims(a, w, h); StepsDims(b, d.0, d.1))
    ensures StepsBack(a + b, w, h, x, y) ==
              (var d := StepsDims(a, w, h);
               var p := StepsBack(b, d.0, d.1, x, y);
               StepsBack(a, w, h, p.0, p.1))
    decreases |a|
  {
    if |a| == 0 {
      assert a + b == b;
    } else {
      assert (a + b)[0] == a[0];
      assert (a + b)[1..] == a[1..] + b;
      var d := Dims(a[0], w, h);
      StepsAppend(a[1..], b, d.0, d.1, x, y);
    }
  }

  /** The image built by `ApplySteps` has the size `StepsDims` predicts. */
  lemma {:induction false} SizeAfterSteps(img: Image, steps: seq<Transform>, w: int, h: int)
    requires Size(img) == Some((w, h))
    ensures Size(ApplySteps(img, steps)) == Some(StepsDims(steps, w, h))
    decreases |steps|
  {
    if |steps| > 0 {
      var d := Dims(steps[0], w, h);
      SizeAfterSteps(Turned(img, steps[0]), steps[1..], d.0, d.1);
    }
  }

  /** The pixels of the destination rectangle `r` that an image of `w` by
      `h` pixels covers when `draw.Draw` anchors the image's origin at the
      rectangle's origin, before the clip to the destination's bounds. */
  function Footprint(r: Rect, w: int, h: int): (a: Rect)
    ensures forall px, py :: a.Contains(px, py) <==>
              r.Contains(px, py) && r.minX <= px < r.minX + w && r.minY <= py < r.minY + h
  {
    r.Intersect(Rect(r.minX, r.minY, r.minX + w, r.minY + h))
  }

  /** The footprint lies in the `w` by `h` box at the rectangle's origin. */
  lemma FootprintInCorner(r: Rect, w: int, h: int)
    ensures Footprint(r, w, h).Within(Rect(r.minX, r.minY, r.minX + w, r.minY + h))
  {
  }

  /** The area `draw.Draw` writes when it draws an image of `w` by `h` pixels
      into the rectangle `r` of a destination whose bounds are `dst`: the
      footprint, clipped to the destination. */
  function DrawnArea(dst: Rect, r: Rect, w: int, h: int): (a: Rect)
    ensures forall px, py :: a.Contains(px, py) <==>
              dst.Contains(px, py) && r.Contains(px, py) &&
              r.minX <= px < r.minX + w && r.minY <= py < r.minY + h
    ensures a.Within(dst)
  {
    r.Intersect(dst).Intersect(Rect(r.minX, r.minY, r.minX + w, r.minY + h))
  }

  /** A footprint inside the destination's bounds is drawn whole: the clip
      removes nothing. */
  lemma NothingClipped(dst: Rect, r: Rect, w: int, h: int)
    requires Footprint(r, w, h).Within(dst)
    ensures forall px, py :: DrawnArea(dst, r, w, h).Contains(px, py) <==> Footprint(r, w, h).Contains(px, py)
  {
  }

  /** What is drawn where. `alpha` is the layer opacity when it is below 1 and
      the image goes through a uniform alpha mask. The destination of an
      object blit is known when the object is not rotated and the size of its
      image is known; a rotated bounding box is computed in floating point. */
  datatype Blit =
    | TileBlit(dest: Rect, image: Image, alpha: Option<real>)
    | ObjectBlit(at: Option<Rect>, image: Image, alpha: Option<real>)

  /** `Renderer.Result`: an NRGBA image of the given bounds and what was drawn
      into it since it was created. */
  datatype Raster = Raster(bounds: Rect, blits: seq<Blit>)

  /** The mask used for a layer or object group of the given opacity. */
  function Mask(opacity: real): (m: Option<real>)
    ensures m.Some? <==> opacity < 1.0
  {
    if opacity < 1.0 then Some(opacity) else None
  }
}

/** Objects, object groups, and the `points` attribute of polygons and polylines. */
module TmxObject {
  import opened Errors
  import opened GoText

  /** `Object`: the attributes the renderer reads. Coordinates and sizes are
      declared `int` in the Go record. */
  datatype Obj = Obj(id: bv32, name: string, x: int, y: int, width: int, height: int,
                     rotation: int, gid: bv32, visible: bool)

  /** `ObjectGroup`. `objects` is the slice of object pointers; the renderer
      reorders it in place. */
  class ObjectGroup {
    const name: string
    const opacity: real
    const visible: bool
    const objects: array<Obj>

    constructor (name: string, opacity: real, visible: bool, objects: seq<Obj>)
      ensures this.name == name && this.opacity == opacity && this.visible == visible
      ensures fresh(this.objects) && this.objects[..] == objects
    {
      this.name := name;
      this.opacity := opacity;
      this.visible := visible;
      this.objects := new Obj[|objects|](k requires 0 <= k < |objects| => objects[k]);
    }
  }

  // ---------------------------------------------------------------------------
  // Point lists

  datatype Point = Point(x: int, y: int)

  /** One `x,y` token: exactly two comma-separated parts, each a signed decimal. */
  function ParsePoint(token: seq<byte>): (r: Result<Point>)
    ensures |Split(token, Comma)| != 2 ==> r == Err(ErrInvalidObjectPoint)
    ensures r.Ok? ==> Atoi(Split(token, Comma)[0]) == Ok(r.value.x) &&
                      Atoi(Split(token, Comma)[1]) == Ok(r.value.y)
  {
    var c := Split(token, Comma);
    if |c| != 2 then Err(ErrInvalidObjectPoint)
    else
      var x :- Atoi(c[0]);
      var y :- Atoi(c[1]);
      Ok(Point(x, y))
  }

  /** Every token in order; the first failing token decides the error. */
  function ParsePoints(tokens: seq<seq<byte>>): (r: Result<seq<Point>>)
    ensures r.Ok? ==> |r.value| == |tokens|
  {
    if |tokens| == 0 then Ok([])
    else
      var p :- ParsePoint(tokens[0]);
      var rest :- ParsePoints(tokens[1..]);
      Ok([p] + rest)
  }

  /** The number of leading tokens that parse. */
  function GoodPrefix(tokens: seq<seq<byte>>): (n: nat)
    ensures n <= |tokens|
    ensures forall k :: 0 <= k < n ==> ParsePoint(tokens[k]).Ok?
    ensures n < |tokens| ==> ParsePoint(tokens[n]).Err?
  {
    if |tokens| == 0 || ParsePoint(tokens[0]).Err? then 0
    else 1 + GoodPrefix(tokens[1..])
  }

  /** The parse succeeds exactly when every token parses; otherwise it fails with
      the error of the first bad token, and a success holds each token's point. */
  lemma {:induction false} ParsePointsSpec(tokens: seq<seq<byte>>)
    ensures ParsePoints(tokens).Ok? <==> GoodPrefix(tokens) == |tokens|
    ensures GoodPrefix(tokens) < |tokens| ==>
              ParsePoints(tokens) == Err(ParsePoint(tokens[GoodPrefix(tokens)]).error)
    ensures ParsePoints(tokens).Ok? ==>
              forall k :: 0 <= k < |tokens| ==> ParsePoint(tokens[k]) == Ok(ParsePoints(tokens).value[k])
    decreases |tokens|
  {
    if |tokens| > 0 {
      ParsePointsSpec(tokens[1..]);
    }
  }

  /** The state a `*Points` receiver is left in, and the error returned. */
  datatype PointsOutcome = PointsOutcome(err: Option<Error>, points: seq<Point>)

  /** `Points.UnmarshalXML` as written: each parsed coordinate is stored into
      the PREVIOUS list (a Go panic once the index passes its end), and on success
      the receiver is replaced by the freshly made list, whose entries were never
      written and so are all zero. */
  function UnmarshalPointsAsWritten(prior: seq<Point>, item: seq<byte>): PointsOutcome
  {
    if item == [] then PointsOutcome(None, prior)
    else
      var tokens := Split(item, Space);
      var good := GoodPrefix(tokens);
      if |prior| < good && |prior| < |tokens| then
        PointsOutcome(Some(Panic("index out of range")), WriteThrough(prior, tokens, |prior|))
      else if good < |tokens| then
        PointsOutcome(Some(ParsePoint(tokens[good]).error),
                      WriteThrough(prior, tokens, good))
      else
        PointsOutcome(None, seq(|tokens|, _ => Point(0, 0)))
  }

  /** The previous list after the first `n` tokens were written through it. */
  function WriteThrough(prior: seq<Point>, tokens: seq<seq<byte>>, n: nat): (r: seq<Point>)
    requires n <= |prior| && n <= |tokens|
    requires forall k :: 0 <= k < n ==> ParsePoint(tokens[k]).Ok?
    ensures |r| == |prior|
    ensures forall k :: 0 <= k < n ==> r[k] == ParsePoint(tokens[k]).value
    ensures forall k :: n <= k < |prior| ==> r[k] == prior[k]
  {
    if n == 0 then prior
    else WriteThrough(prior, tokens, n - 1)[n - 1 := ParsePoint(tokens[n - 1]).value]
  }

  /** The evidently intended behaviour: the parsed points replace the list; on an
      error, or for an empty attribute, the list is left as it was. */
  function UnmarshalPoints(prior: seq<Point>, item: seq<byte>): (r: PointsOutcome)
    ensures item == [] ==> r == PointsOutcome(None, prior)
    ensures item != [] ==> match ParsePoints(Split(item, Space))
                           case Ok(ps) => r == PointsOutcome(None, ps)
                           case Err(e) => r == PointsOutcome(Some(e), prior)
  {
    if item == [] then PointsOutcome(None, prior)
    else
      match ParsePoints(Split(item, Space))
      case Ok(ps) => PointsOutcome(None, ps)
      case Err(e) => PointsOutcome(Some(e), prior)
  }

  /** The loop body of `UnmarshalXML` for one token: split at the comma and
      convert both halves, returning the first error met. */
  method ScanPoint(token: seq<byte>) returns (r: Result<Point>)
    ensures r == ParsePoint(token)
  {
    var c := Split(token, Comma);
    if |c| != 2 {
      return Err(ErrInvalidObjectPoint);
    }
    var x := Atoi(c[0]);
    if x.Err? {
      return Err(x.error);
    }
    var y := Atoi(c[1]);
    if y.Err? {
      return Err(y.error);
    }
    return Ok(Point(x.value, y.value));
  }

  /** The `*Points` receiver of `UnmarshalXML`. */
  class PointList {
    var points: seq<Point>

    constructor (points: seq<Point>)
      ensures this.points == points
    {
      this.points := points;
    }

    /** `Points.UnmarshalXML` as written (see `UnmarshalPointsAsWritten`). */
    method UnmarshalAsWritten(item: seq<byte>) returns (err: Option<Error>)
      modifies this
      ensures PointsOutcome(err, points) == UnmarshalPointsAsWritten(old(points), item)
    {
      if item == [] {
        return None;
      }
      var ps := Split(item, Space);
      var made := seq(|ps|, _ => Point(0, 0));
      var i := 0;
      while i < |ps|
        invariant 0 <= i <= |ps| && i <= GoodPrefix(ps)
        invariant i <= |old(points)| && |points| == |old(points)|
        invariant points == WriteThrough(old(points), ps, i)
      {
        var p := ScanPoint(ps[i]);
        if p.Err? {
          AsWrittenStops(old(points), item, i);
          return Some(p.error);
        }
        assert i < GoodPrefix(ps);
        if i >= |points| {
          AsWrittenOverruns(old(points), item);
          return Some(Panic("index out of range"));
        }
        points := points[i := p.value];
        i := i + 1;
      }
      points := made;
      return None;
    }

    /** The corrected `UnmarshalXML`: coordinates go into the new list. */
    method Unmarshal(item: seq<byte>) returns (err: Option<Error>)
      modifies this
      ensures PointsOutcome(err, points) == UnmarshalPoints(old(points), item)
    {
      if item == [] {
        return None;
      }
      var ps := Split(item, Space);
      var made := seq(|ps|, _ => Point(0, 0));
      var i := 0;
      while i < |ps|
        invariant 0 <= i <= |ps| && i <= GoodPrefix(ps) && |made| == |ps|
        invariant points == old(points)
        invariant forall k :: 0 <= k < i ==> ParsePoint(ps[k]) == Ok(made[k])
      {
        var p := ScanPoint(ps[i]);
        if p.Err? {
          assert GoodPrefix(ps) == i;
          ParsePointsSpec(ps);
          return Some(p.error);
        }
        made := made[i := p.value];
        i := i + 1;
      }
      ParsePointsSpec(ps);
      ParsePointsAll(ps, made);
      points := made;
      return None;
    }
  }

  /** The as-written parse stops at the first bad token when it is still
      inside the previous list. */
  lemma AsWrittenStops(prior: seq<Point>, item: seq<byte>, i: nat)
    requires item != [] && i <= |prior| && i < |Split(item, Space)|
    requires i <= GoodPrefix(Split(item, Space))
    requires ParsePoint(Split(item, Space)[i]).Err?
    ensures UnmarshalPointsAsWritten(prior, item) ==
              PointsOutcome(Some(ParsePoint(Split(item, Space)[i]).error), WriteThrough(prior, Split(item, Space), i))
  {
    assert GoodPrefix(Split(item, Space)) == i;
  }

  /** The as-written parse panics when a good token lies past the end of the
      previous list. */
  lemma AsWrittenOverruns(prior: seq<Point>, item: seq<byte>)
    requires item != [] && |prior| < GoodPrefix(Split(item, Space))
    ensures UnmarshalPointsAsWritten(prior, item) ==
              PointsOutcome(Some(Panic("index out of range")), WriteThrough(prior, Split(item, Space), |prior|))
  {
  }

  /** A parse that succeeds token by token succeeds as a whole with those points. */
  lemma {:induction false} ParsePointsAll(tokens: seq<seq<byte>>, ps: seq<Point>)
    requires |ps| == |tokens|
    requires forall k :: 0 <= k < |tokens| ==> ParsePoint(tokens[k]) == Ok(ps[k])
    ensures ParsePoints(tokens) == Ok(ps)
    decreases |tokens|
  {
    if |tokens| > 0 {
      ParsePointsAll(tokens[1..], ps[1..]);
      assert [ps[0]] + ps[1..] == ps;
    }
  }

  // ---------------------------------------------------------------------------
  // Properties of the two versions

  /** On success the stored list has one entry per space-separated token, in
      both versions; as written every entry is the zero point. */
  lemma PointCountMatchesTokens(prior: seq<Point>, item: seq<byte>)
    requires item != []
    ensures UnmarshalPoints(prior, item).err.None? ==>
              |UnmarshalPoints(prior, item).points| == Count(item, Space) + 1
    ensures UnmarshalPointsAsWritten(prior, item).err.None? ==>
              UnmarshalPointsAsWritten(prior, item).points == seq(Count(item, Space) + 1, _ => Point(0, 0))
  {
  }

  /** A token that is not exactly two comma-separated parts is rejected by both
      versions when it is the first token. */
  lemma TwoPartsRequired(prior: seq<Point>, token: seq<byte>, rest: seq<byte>)
    requires Space !in token && |Split(token, Comma)| != 2
    ensures UnmarshalPoints(prior, token + [Space] + rest) == PointsOutcome(Some(ErrInvalidObjectPoint), prior)
    ensures UnmarshalPointsAsWritten(prior, token + [Space] + rest).err == Some(ErrInvalidObjectPoint)
  {
    SplitAfterPiece(token, Space, rest);
    var tokens := Split(token + [Space] + rest, Space);
    assert tokens[0] == token;
    ParsePointsSpec(tokens);
  }

  /** `x,y` for one point. */
  function FormatPoint(p: Point): seq<byte>
  {
    FormatInt(p.x) + [Comma] + FormatInt(p.y)
  }

  /** The attribute text of a non-empty point list. */
  function FormatPoints(ps: seq<Point>): seq<byte>
    requires |ps| > 0
  {
    Join(seq(|ps|, k requires 0 <= k < |ps| => FormatPoint(ps[k])), Space)
  }

  predicate InIntRange(p: Point)
  {
    -IntCutoff <= p.x < IntCutoff && -IntCutoff <= p.y < IntCutoff
  }

  lemma FormatPointRoundTrip(p: Point)
    requires InIntRange(p)
    ensures ParsePoint(FormatPoint(p)) == Ok(p)
    ensures Space !in FormatPoint(p)
  {
    FormatIntHasNoSeparator(p.x, Comma);
    FormatIntHasNoSeparator(p.y, Comma);
    FormatIntHasNoSeparator(p.x, Space);
    FormatIntHasNoSeparator(p.y, Space);
    SplitAfterPiece(FormatInt(p.x), Comma, FormatInt(p.y));
    SplitWithoutSeparator(FormatInt(p.y), Comma);
    AtoiFormatInt(p.x);
    AtoiFormatInt(p.y);
  }

  /** Round trip of the corrected parser: the text of any non-empty list of
      64-bit points reads back as that list. */
  lemma PointsRoundTrip(prior: seq<Point>, ps: seq<Point>)
    requires |ps| > 0 && forall k :: 0 <= k < |ps| ==> InIntRange(ps[k])
    ensures UnmarshalPoints(prior, FormatPoints(ps)) == PointsOutcome(None, ps)
  {
    var pieces := seq(|ps|, k requires 0 <= k < |ps| => FormatPoint(ps[k]));
    forall k | 0 <= k < |pieces|
      ensures Space !in pieces[k] && ParsePoint(pieces[k]) == Ok(ps[k])
    {
      FormatPointRoundTrip(ps[k]);
    }
    SplitJoin(pieces, Space);
    ParsePointsAll(pieces, ps);
    assert FormatPoints(ps) != [] by {
      assert |Split(FormatPoints(ps), Space)| == |ps|;
    }
  }

  /** The defect, shown on the attribute `"1,2"`: as written, a previous list of
      one point ends up as the zero point (the parsed coordinates were written
      into the list that is then discarded), and a previous empty list (the nil
      slice a fresh receiver holds) panics. The corrected version stores (1, 2). */
  lemma AsWrittenDropsCoordinates()
    ensures UnmarshalPointsAsWritten([Point(5, 5)], [0x31, Comma, 0x32]) == PointsOutcome(None, [Point(0, 0)])
    ensures UnmarshalPointsAsWritten([], [0x31, Comma, 0x32]).err == Some(Panic("index out of range"))
    ensures UnmarshalPoints([], [0x31, Comma, 0x32]) == PointsOutcome(None, [Point(1, 2)])
  {
    var item: seq<byte> := [0x31, Comma, 0x32];
    SplitWithoutSeparator(item, Space);
    assert item == [0x31] + [Comma] + [0x32];
    var c := Split(item, Comma);
    SplitAfterPiece([0x31], Comma, [0x32]);
    SplitWithoutSeparator([0x32], Comma);
    assert c == [[0x31], [0x32]];
    assert Atoi([0x31]) == Ok(1);
    assert Atoi([0x32]) == Ok(2);
    assert ParsePoint(item) == Ok(Point(1, 2));
    assert GoodPrefix([item]) == 1;
    ParsePointsAll([item], [Point(1, 2)]);
  }
}

# go-tiled, modelled in Dafny

This project models the core of go-tiled, a Go library that reads maps made
with the Tiled editor (TMX maps and TSX tilesets) and renders them to an
image. Each Dafny module follows one part of the package:

- **Gid** covers global tile IDs (GIDs). The three flip flags are the top
  bits of the 32-bit word and the tile ID is the rest. A GID is resolved to
  the tileset whose `FirstGID` range holds it.
- **TmxData** covers layer data. A layer's `<data>` element is decoded as
  CSV, as plain XML `<tile>` elements, or as base64. The base64 data may be
  gzip- or zlib-compressed, and its bytes are read as little-endian 32-bit
  GIDs. **Tiled** builds a layer's tiles from those GIDs. It also holds the
  map-level rules: the decoded tile count check, the tileset shared by all of
  a layer's tiles, and `Map.TileGIDToTile`.
- **TmxTileset** covers `Tileset.GetTileRect`, which finds a tile's
  rectangle in the tileset atlas from the margin, spacing and column count.
  It also covers `GetTilesetTile`, which finds a tile's entry by its ID.
- **HexColors** covers the `#RGB`, `#ARGB`, `#RRGGBB` and `#AARRGGBB` colour
  attribute: the parser, the formatter, and their round trip.
- **Properties** covers custom properties: `Get`, `GetString` and
  `GetBool`, with their precedence rules.
- **TmxObject** covers objects and the `points` attribute of polygons and
  polylines, and **GoText** covers the Go string and number helpers those
  parsers use.
- **Orthogonal** and **Hexagonal** are the two render engines. Each has a
  final image size, a tile position per cell and a tile image transform.
  **Geometry** holds `image.Rectangle` and its operations.
- **RenderSpec** states, as functions, which cells and objects a layer,
  object group or group draws, and in what order.
- **Render** is the `Renderer` class. It has the tile image cache, the
  layer loop, per-object drawing with its skip and resize decisions, and the
  group entry points. **Canvas** holds the images it works on.
- **Utils** covers the sort helpers: the (Y, X) object comparator and
  `SortAny` over Go's `sort.Interface`. The package has two identical copies
  of this file, `utils/utils.go` and `internal/utils/utils.go`. They are
  modelled once.

Images are symbolic values. An image records which operations produced it:
decode, crop, flip, rotate or resize. The renderer's result is its bounds
plus a log of the blits drawn into it, in order. The things the package reads
from outside are parameters of the model:

- the file system,
- the image decoder,
- the base64, gzip and zlib decoders,
- the loader for external tilesets.

Go's integer division truncates toward zero and is modelled that way. A Go
panic, such as an index out of range or a negative slice index, is an error
value `Panic` that names the reason.

## Model

| member | source | states |
|---|---|---|
| Canvas.CropInside | render/renderer.go:133 | cropping a decoded atlas to a tile rectangle inside it yields an image of exactly that rectangle's size |
| Canvas.StepsAppend | render/orthogonal.go:44-57 | applying two runs of flips and rotations one after the other moves pixels as the composition of the two, and sizes compose the same way |
| Canvas.SizeAfterSteps | render/orthogonal.go:44-57 | the image after a run of flips and rotations has the size predicted from the input size, width and height exchanged by each quarter turn |
| Canvas.Footprint | render/renderer.go:158-160 | the pixels of the destination rectangle an image covers when anchored at the rectangle's origin: exactly the rectangle's points inside the image's box |
| Canvas.DrawnArea | render/renderer.go:155-161 | `draw.Draw` and `draw.DrawMask` write exactly the points of the destination rectangle that lie in the destination's bounds and in the image's box anchored at the rectangle's origin, and nothing outside the destination's bounds |
| Canvas.NothingClipped | render/renderer.go:155-161 | a footprint inside the destination's bounds is drawn whole |
| Canvas.FootprintInCorner | render/renderer.go:158-160 | the footprint never extends past the image's size from the rectangle's origin |
| Geometry.GoDiv | render/hexagonal.go:74 | Go's truncating `/` agrees with Euclidean division on a non-negative dividend and positive divisor |
| Geometry.GoMod | render/hexagonal.go:73 | Go's `%` satisfies `a == b * (a / b) + a % b` and agrees with Euclidean remainder on non-negative operands |
| Geometry.GoDivTruncates | render/hexagonal.go:73-74 | with negative operands Go's `/` rounds toward zero, so negating either operand negates the quotient; `%` takes the sign of the dividend and is smaller than the divisor in magnitude |
| Geometry.Rect.Intersect | render/renderer.go:158-160 | the clip `draw.Draw` applies: a non-empty result covers exactly the points common to both rectangles, and an empty result means they share no point |
| Geometry.ZeroRect | render/hexagonal.go:50 | `image.Rectangle{}` is empty and covers no point |
| Geometry.MakeRect | render/orthogonal.go:60-63 | `image.Rect` puts the smaller corner coordinate in Min and the larger in Max, and keeps already ordered corners as given |
| Gid.BareClearsFlipBits | tmx_map.go:130 | `gid &^ tileFlip` clears bits 31, 30 and 29 and keeps every other bit |
| Gid.FlipFlagsAreTopBits | tmx_map.go:32-34 | the horizontal, vertical and diagonal flags are bits 31, 30 and 29 |
| Gid.Bit28Survives | tmx_map.go:35-36 | the GID is cleaned with the three-bit `tileFlip` mask, so bit 28 is kept, whereas the declared `tileGIDMask` would have dropped it |
| Gid.FlipRoundTrip | tmx_map.go:130-143 | a GID built from a bare id and three flags splits back into exactly that id and those flags |
| Gid.FlipsDoNotChangeBare | tmx_map.go:130 | toggling flip flags never changes the bare GID |
| Gid.OnlyFlipsGiveBareZero | tmx_map.go:126-130 | a non-zero GID made only of flags passes the zero test but has bare id 0 |
| Gid.SelectBelow | tmx_map.go:132-133 | the backwards scan picks the last tileset, in list order, whose first GID is at most the bare GID, and finds none exactly when no tileset qualifies |
| Gid.SelectTilesetSpec | tmx_map.go:132-147 | the selected tileset is the last one in list order with `FirstGID <= gidBare`, even when the list is not sorted by first GID |
| GoText.TrimLeftSkipsSpace | tmx_data.go:61 | leading ASCII white space is dropped by `bytes.TrimSpace` |
| GoText.TrimRightSkipsSpace | tmx_data.go:61 | trailing ASCII white space is dropped by `bytes.TrimSpace` |
| GoText.TrimSpaceIgnoresPadding | tmx_data.go:61 | white space on both sides of the payload does not change what is decoded |
| GoText.Split | tmx_data.go:97 | `strings.Split` gives one more piece than there are separators, and no piece holds a separator |
| GoText.SplitJoin | tmx_object.go:131 | `strings.Split` undoes `strings.Join` when no piece holds the separator |
| GoText.SplitTrailingSeparator | tmx_data.go:97 | a separator at the end of the text yields an empty last piece |
| GoText.FormatDecValue | tmx_data.go:103 | the decimal rendering of a number reads back as that number |
| GoText.ScanDigitsValue | tmx_data.go:103 | the digit scan of `ParseUint` succeeds exactly when the value fits the bound, with that value, and otherwise reports a range error |
| GoText.ScanStopsAtNonDigit | tmx_data.go:103 | any non-digit byte makes `ParseUint` fail |
| GoText.ParseUint32Spec | tmx_data.go:103-106 | `ParseUint(s, 10, 32)`: the empty string is a syntax error, non-digits fail, digits within 32 bits give their value and larger values are a range error |
| GoText.ParseFormatDec | tmx_data.go:103-106 | every 32-bit value survives formatting and `ParseUint` |
| GoText.Atoi | tmx_object.go:143-148 | `strconv.Atoi` returns a value in the 64-bit range or a syntax or range error |
| GoText.AtoiFormatInt | tmx_object.go:143-148 | every 64-bit integer survives `Itoa` followed by `Atoi` |
| GoText.FormatIntHasNoSeparator | tmx_object.go:131-136 | a formatted coordinate contains neither the space nor the comma that separate points |
| Orthogonal.UnflippedKeepsImage | render/orthogonal.go:44-57 | a tile without flip flags is drawn from its image unchanged |
| Orthogonal.FlipPixels | render/orthogonal.go:44-57 | the pixel each flip combination draws: the diagonal flip (270 degree turn then horizontal flip) transposes, the horizontal and vertical flips then mirror, and a diagonal flip swaps width and height |
| Orthogonal.TileInsideImage | render/orthogonal.go:40-64 | every cell of the map is a tile-sized rectangle inside the final image |
| Orthogonal.TilesDisjoint | render/orthogonal.go:59-64 | distinct cells are drawn on rectangles with no common pixel |
| Orthogonal.FinalImageSizeExample | render/orthogonal.go:40-42 | a 10 by 8 map of 16 by 16 pixel tiles renders to a 160 by 128 image |
| Hexagonal.CorrectionScope | render/hexagonal.go:83-93 | the corrected position differs from the written one exactly on Y-staggered maps with non-square tiles, for every column but the first |
| Hexagonal.CorrectionMovesColumn | render/hexagonal.go:90 | on such maps every column but the first is moved by the correction |
| Hexagonal.UnflippedKeepsImage | render/hexagonal.go:54-67 | a tile without flip flags is drawn from its image unchanged |
| Hexagonal.FlipPixels | render/hexagonal.go:54-67 | the pixel each flip combination draws: the diagonal flip (90 degree turn then horizontal flip) mirrors across the anti-diagonal, and a diagonal flip swaps width and height |
| Hexagonal.AsWrittenNeighboursOverlap | render/hexagonal.go:90 | as written, neighbouring cells of a row on a Y-staggered map of 32 by 16 tiles are drawn over each other |
| Hexagonal.AsWrittenLeavesImage | render/hexagonal.go:48-90 | as written, a cell of a Y-staggered map of 16 by 32 tiles reaches past the right edge of the final image, and the part past the edge is clipped away |
| Hexagonal.OriginAxisX | render/hexagonal.go:72-82 | on an X-staggered map columns advance by three quarters of a tile width and odd columns drop by half a tile height |
| Hexagonal.OriginAxisY | render/hexagonal.go:83-93 | on a Y-staggered map (corrected) rows advance by three quarters of a tile height and odd rows shift right by half a tile width |
| Hexagonal.RowCellsDisjoint | render/hexagonal.go:83-93 | on a Y-staggered map (corrected) the tiles of distinct cells of one row do not overlap |
| Hexagonal.ColumnCellsDisjoint | render/hexagonal.go:72-82 | on an X-staggered map the tiles of distinct cells of one column do not overlap |
| Hexagonal.AxisXInsideImage | render/hexagonal.go:45-82 | every cell of an X-staggered map is drawn inside the final image, so the clip removes none of its pixels |
| Hexagonal.RowsFit | render/hexagonal.go:48-93 | rows advancing by three quarters of a tile height fit in the image height `(Height+1)*TileHeight*3/4` |
| Hexagonal.AxisYInsideImage | render/hexagonal.go:47-93 | every cell of a Y-staggered map (corrected) is drawn inside the final image, so the clip removes none of its pixels |
| Hexagonal.UnknownAxisIsEmpty | render/hexagonal.go:50-95 | a map with neither stagger axis gets an empty image and empty cells |
| HexColors.HexToByte | tmx_hexcolor.go:84-95 | a hex digit of either case maps to its value below 16; any other character maps to 0 |
| HexColors.ParseDigits | tmx_hexcolor.go:99-123 | the text after the '#' parses exactly when it is 3, 4, 6 or 8 hex digits, and otherwise fails with "Invalid Format"; 3 and 6 digits give an opaque colour; 3 and 4 digits give channels that are multiples of 17 |
| HexColors.HexCharReadsBack | tmx_hexcolor.go:59 | `hex.Encode` writes a lower-case digit that `hexToByte` reads back as its value |
| HexColors.Hex2ReadsBack | tmx_hexcolor.go:59-109 | the two lower-case digits written for a channel read back as that channel |
| HexColors.FormatShape | tmx_hexcolor.go:47-62 | `String` writes '#' and six lower-case digits for an opaque colour, eight when alpha is below 255 |
| HexColors.SixDigits | tmx_hexcolor.go:105-109 | six digits are red, green and blue of an opaque colour |
| HexColors.EightDigits | tmx_hexcolor.go:100-104 | eight digits are alpha first, then red, green and blue |
| HexColors.ShortDigits | tmx_hexcolor.go:110-119 | three digits are red, green and blue of an opaque colour, four digits put alpha first, and each digit d gives the channel 17 * d |
| HexColors.OpaqueRoundTrip | tmx_hexcolor.go:47-109 | an opaque colour, written without its alpha pair, parses back to itself |
| HexColors.TranslucentDigits | tmx_hexcolor.go:48-104 | the `#AARRGGBB` order is read back in the same order it is written |
| HexColors.TranslucentRoundTrip | tmx_hexcolor.go:47-104 | a colour with alpha below 255 parses back to itself |
| HexColors.FormatRoundTrip | tmx_hexcolor.go:22-62 | for every colour, `ParseHexColor(c.String())` gives `c` back |
| HexColors.HashIsOptional | tmx_hexcolor.go:97 | the leading '#' may be left out |
| HexColors.LowerKeepsDigit | tmx_hexcolor.go:88-91 | lower-casing keeps a hex digit a hex digit, with the same value |
| HexColors.CaseInsensitive | tmx_hexcolor.go:84-95 | a colour string parses the same as its lower-case spelling |
| HexColors.BadLengthFails | tmx_hexcolor.go:120-121 | any length other than 3, 4, 6 or 8 after the '#' is rejected whatever the characters |
| HexColors.NewHexColor | tmx_hexcolor.go:31-40 | each `uint32` argument is narrowed to its low 8 bits, so values below 256 are kept as given |
| HexColors.ParseExampleLower | tiled_test.go:289-300 | "#aabbcc" is the opaque colour (170, 187, 204) |
| HexColors.ParseExampleEight | tiled_test.go:301-312 | "#aabbccdd" has alpha 0xaa and colour (0xbb, 0xcc, 0xdd) |
| HexColors.ParseExamplesShort | tiled_test.go:313-336 | "#fff" and "#ffff" are opaque white |
| HexColors.ParseExampleSmall | tiled_test.go:337-348 | "#010203" is the opaque colour (1, 2, 3) |
| HexColors.ParseExampleUpper | tiled_test.go:349-360 | "#ABCDEF" is the opaque colour (171, 205, 239) |
| HexColors.FormatExampleWhite | tiled_test.go:377-381 | opaque white is written "#ffffff" |
| HexColors.FormatExampleClearWhite | tiled_test.go:382-386 | fully transparent white is written "#00ffffff" |
| HexColors.FormatExampleHalfWhite | tiled_test.go:387-391 | white at alpha 128 is written "#80ffffff" |
| HexColors.FormatExampleChannels | tiled_test.go:392-396 | (16, 32, 48) opaque is written "#102030" |
| HexColors.FormatExampleSmall | tiled_test.go:397-401 | (1, 2, 3) opaque is written "#010203" |
| HexColors.FormatExampleClearBlack | tiled_test.go:402-406 | transparent black is written "#00000000" |
| HexColors.HexColor.UnmarshalXMLAttr | tmx_hexcolor.go:65-72 | a well-formed attribute replaces the colour with the parsed one; a malformed one returns "Invalid Format" and leaves the colour as it was |
| Properties.FirstWhere | tmx_property.go:56-64 | the index found is the first entry satisfying the test, and none is found exactly when no entry does |
| Properties.ValuesNamedSpec | tmx_property.go:42-51 | the values collected for a name are exactly the values of the entries with that name, and the list is empty exactly when no entry has the name |
| Properties.Get | tmx_property.go:42-51 | `Get` returns the values of all entries called `name`, in list order |
| Properties.GetString | tmx_property.go:54-67 | `GetString` returns the value of the first untyped entry called `name`, else the first non-empty value of a typed one, else "" |
| Properties.GetBool | tmx_property.go:70-78 | `GetBool` reads the first entry called `name` typed exactly "Boolean", and otherwise compares the `GetString` answer with "true" |
| Properties.UntypedWins | tmx_property.go:58-59 | an untyped entry wins over every typed entry of the same name, whether it comes before or after them |
| Properties.TypedFallback | tmx_property.go:60-66 | without untyped entries the answer is the first non-empty typed value, "" when there is none, and always a value some entry holds |
| Properties.FirstFilledAt | tmx_property.go:60-61 | a typed entry with an empty value is skipped in favour of a later non-empty one |
| Properties.BoolPrecedence | tmx_property.go:71-75 | the first "Boolean" entry decides `GetBool`, whatever other entries say |
| Properties.LowercaseBooleanFallsBack | tmx_property_test.go:31-59 | on the package's test list, the entry typed "boolean" is read through the string fallback and gives true, and `GetString` finds "string-value" |
| Properties.TestBoolAsString | tmx_property_test.go:48-58 | on the test list, `GetString("bool-name")` is "true" |
| Properties.TestStringTyped | tmx_property_test.go:33-55 | on the test list, `GetString("string-name")` is "string-value" though the entry is typed |
| TmxData.DecodeBase64 | tmx_data.go:60-86 | the payload is trimmed and base64-decoded, then gunzipped for "gzip", inflated for "zlib", passed through for ""; any other compression is `ErrUnknownCompression`; a decoder error is returned as is |
| TmxData.DecodeBase64IgnoresPadding | tmx_data.go:61 | white space around the payload does not change the decoded bytes |
| TmxData.Clean | tmx_data.go:89-95 | the cleaner keeps exactly the digits and commas of the text, in order, and nothing else |
| TmxData.CleanKeepsCleanText | tmx_data.go:89-95 | text made only of digits and commas passes through the cleaner unchanged |
| TmxData.CleanKeepsCommas | tmx_data.go:89-97 | the cleaner keeps every comma, so the token count is fixed by the raw text |
| TmxData.ParseAllOk | tmx_data.go:99-108 | when every token parses, the result holds each token's value at its position |
| TmxData.ParseAllFirstError | tmx_data.go:103-105 | the first token that fails decides the error |
| TmxData.ParseAllElements | tmx_data.go:106 | the i-th GID of a successful parse is the value of the i-th token |
| TmxData.DecodeCSV | tmx_data.go:88-109 | the loop computes the clean-split-parse meaning of the payload, stopping at the first parse error |
| TmxData.CsvGidsSpec | tmx_data.go:88-109 | a successful decode has one GID per comma-separated token (commas plus one) and each GID is its token's value |
| TmxData.CsvEmptyTokenFails | tmx_data.go:95-105 | a payload with no digit or comma, or one ending in a comma, yields an empty token and fails |
| TmxData.FirstFailure | tmx_data.go:103-105 | one failing token makes the whole decode fail |
| TmxData.CsvRoundTrip | tmx_data.go:88-109 | the comma-separated decimal text of a non-empty GID list decodes to that list |
| TmxObject.ObjectGroup.constructor | tmx_object.go:38-57 | an object group holds its name, opacity, visibility and a fresh array of its objects |
| TmxObject.ParsePoint | tmx_object.go:136-148 | a token that is not two comma-separated parts is `ErrInvalidObjectPoint`; a parsed point holds the `Atoi` values of the two parts |
| TmxObject.GoodPrefix | tmx_object.go:135-148 | the tokens before it all parse and the token at it, if any, fails |
| TmxObject.ParsePointsSpec | tmx_object.go:135-151 | the token loop succeeds exactly when every token parses, with each token's point; otherwise the first bad token's error is returned |
| TmxObject.WriteThrough | tmx_object.go:149-150 | writing the first n parsed points through the previous list changes exactly its first n entries |
| TmxObject.UnmarshalPoints | tmx_object.go:127-155 | corrected: an empty attribute leaves the list alone; otherwise the parsed points replace it, and on an error it is left as it was |
| TmxObject.ScanPoint | tmx_object.go:136-148 | the loop body computes the point of one token or its first error |
| TmxObject.PointList.UnmarshalAsWritten | tmx_object.go:121-155 | the receiver and the error after the method are those of the as-written parse |
| TmxObject.PointList.Unmarshal | tmx_object.go:121-155 | the receiver and the error after the method are those of the corrected parse |
| TmxObject.AsWrittenStops | tmx_object.go:135-150 | as written, a bad token inside the previous list stops the loop with its error after the good points were written through |
| TmxObject.AsWrittenOverruns | tmx_object.go:149-150 | as written, a good token past the end of the previous list is an index-out-of-range panic |
| TmxObject.ParsePointsAll | tmx_object.go:135-151 | a token-by-token success is a success of the whole loop with those points |
| TmxObject.PointCountMatchesTokens | tmx_object.go:131-153 | on success the list has one entry per space-separated token; as written every entry is the zero point |
| TmxObject.TwoPartsRequired | tmx_object.go:136-139 | a first token that is not `x,y` is rejected with `ErrInvalidObjectPoint` by both versions |
| TmxObject.FormatPointRoundTrip | tmx_object.go:136-148 | the `x,y` text of a 64-bit point parses back to it and holds no space |
| TmxObject.PointsRoundTrip | tmx_object.go:121-155 | corrected: the attribute text of any non-empty list of 64-bit points reads back as that list |
| TmxObject.AsWrittenDropsCoordinates | tmx_object.go:133-153 | as written, "1,2" over a one-point list leaves the zero point and over an empty list panics; corrected, it stores (1, 2) |
| TmxTileset.TilesetDesc.AtlasColumns | tmx_tileset.go:127-131 | a non-zero `Columns` is used as is; otherwise the column count is the image width divided by the tile width plus spacing |
| TmxTileset.TilesetDesc.GetTileRect | tmx_tileset.go:125-147 | `GetTileRect` yields a rectangle exactly when none of its divisions and image dereferences panics, and a runtime panic otherwise |
| TmxTileset.TileRectGeometry | tmx_tileset.go:137-146 | the rectangle is one tile wide and high, with its corner at column times (tile width plus spacing) plus margin and row times (tile height plus spacing) plus margin |
| TmxTileset.TileRectIgnoresTileCount | tmx_tileset.go:133-135 | `TileCount` never changes the rectangle |
| TmxTileset.TestAtlasCell | tmx_tileset.go:137-138 | in a two-column atlas tile id sits at column id mod 2 and row id div 2 |
| TmxTileset.TileRectTestPlain | tmx_tileset_test.go:48-73 | the four rectangles of the test atlas without spacing or margin |
| TmxTileset.TileRectTestSpacing | tmx_tileset_test.go:75-101 | the four rectangles of the test atlas with spacing 5 |
| TmxTileset.TileRectTestMargin | tmx_tileset_test.go:103-129 | the four rectangles of the test atlas with margin 5 |
| TmxTileset.TileRectTestMarginSpacing | tmx_tileset_test.go:131-157 | the four rectangles of the test atlas with margin 5 and spacing 5 |
| TmxTileset.CellDetermines | tmx_tileset.go:137-138 | distinct tile ids never share both column and row |
| TmxTileset.TileRectsDisjoint | tmx_tileset.go:125-147 | distinct tiles of an atlas with a positive column count and non-negative sizes and spacing occupy rectangles with no common pixel |
| TmxTileset.Tileset.GetTilesetTile | tmx_tileset.go:150-164 | the result is the first `<tile>` entry with the requested id, and the "no tilesetTile" error exactly when no entry has it |
| Tiled.Map.constructor | tmx_map.go:48-91 | a decoded map holds its attributes, tilesets and layer lists as given |
| Tiled.Map.InitTileset | tmx_map.go:93-122 | a loaded tileset is returned untouched; an inline one is marked loaded with the map's base directory; an external one is loaded into a fresh record with the stub's first GID and source, or the loader's error is returned, and the stub is never changed |
| Tiled.Map.TileGIDToTile | tmx_map.go:125-150 | the call fails exactly when the GID has no covering tileset or its external file cannot be loaded, with that error; otherwise the tile is the correct resolution: the nil tile for 0, else the selected tileset, the local id and the three flags; an inline tileset resolved for the first time is marked loaded with the map's base directory, and every other tileset record is left unchanged |
| Tiled.Map.ResolveIn | tmx_map.go:133-146 | resolving against the selected tileset yields the correct tile or the loader's error; an inline tileset not yet loaded is marked loaded with the map's base directory |
| Tiled.FlipsResolveAlike | tmx_map.go:130-143 | GIDs differing only in flip bits resolve to the same local id in the same tileset |
| Tiled.OnlyZeroIsNil | tmx_map.go:126-128 | only raw GID 0 is the nil tile; a GID made only of flip bits needs a tileset with first GID 0 |
| Tiled.NoTilesetsNoTiles | tmx_map.go:149 | with no tilesets every non-zero GID is `ErrInvalidTileGID` |
| Tiled.LittleEndianRoundTrip | tmx_layer.go:138-141 | four little-endian bytes read back as the GID they encode |
| Tiled.WordsOf | tmx_layer.go:133-146 | the base64 grid has `Width * Height` GIDs |
| Tiled.EncodeWordsAt | tmx_layer.go:138-142 | word k of the encoded payload occupies bytes 4k to 4k+3 |
| Tiled.WordsRoundTrip | tmx_layer.go:133-146 | the little-endian bytes of `w * h` GIDs, row by row, decode to those GIDs |
| Tiled.NegativeDimensionsGiveZeros | tmx_layer.go:129-136 | with both dimensions negative the size check passes, the loops never run and the layer is a positive number of zero GIDs |
| Tiled.CsvLayerGids | tmx_layer.go:110-121 | a CSV layer keeps the decoded GIDs only when there are `Width * Height` of them, and passes a decode error through |
| Tiled.Base64LayerGids | tmx_layer.go:123-149 | a base64 layer has `Width * Height` GIDs when it succeeds |
| Tiled.LayerGids | tmx_layer.go:154-169 | an encoding other than "csv", "base64" or "" is `ErrUnknownEncoding`; a success has one GID per cell |
| Tiled.SharedTileset | tmx_layer.go:196-208 | the scan finds the tileset record of the first non-nil tile, reports "mixed" exactly when two non-nil tiles use different records, and finds none exactly when all tiles are nil |
| Tiled.Layer.constructor | tmx_layer.go:64-90 | a fresh layer has its attributes and payload, no tiles, no map and no tileset |
| Tiled.Layer.DecodeLayerXML | tmx_layer.go:97-108 | the loop yields the `<tile>` GIDs in order, or `ErrInvalidDecodedTileCount` |
| Tiled.Layer.DecodeLayerCSV | tmx_layer.go:110-121 | the method computes the CSV layer GIDs |
| Tiled.Layer.DecodeLayerBase64 | tmx_layer.go:123-149 | the nested loops compute the row-major little-endian words of the payload, or the decode or count error |
| Tiled.Layer.ReadRow | tmx_layer.go:137-145 | one pass of the inner loop fills row y with its words and leaves later cells zero |
| Tiled.Layer.DecodeGids | tmx_layer.go:154-169 | the switch yields the GIDs of the layer's encoding |
| Tiled.Layer.ResolveGids | tmx_layer.go:171-177 | every cell holds the resolution of its GID, or the loop stops at the first GID that fails with its error and the cells before it resolved |
| Tiled.Layer.DecodeTiles | tmx_layer.go:151-180 | a decode error is returned with the tiles untouched; otherwise every GID is resolved in order up to the first failure |
| Tiled.Layer.DecodeLayer | tmx_layer.go:183-218 | missing data is `ErrEmptyLayerData`; any error keeps the raw data, and a payload decode error leaves the tiles and the tilesets untouched; tileset resolution is never disturbed; on success the raw data is dropped, the layer is empty exactly when every tile is nil, and its tileset is the one record all non-nil tiles share, or none when they are mixed |
| Tiled.Layer.RecordTileset | tmx_layer.go:196-215 | the layer is empty exactly when every tile is nil; a non-null tileset is shared by every non-nil tile, and null means all nil or mixed |
| Tiled.CellInRange | tmx_layer.go:144 | cell `y * Width + x` and its four bytes lie inside the grid |
| Tiled.Group.constructor | tmx_group.go:29-73 | a group holds its attributes, layers, object groups and nested groups as given |
| RenderSpec.Count32 | render/renderer.go:131 | `uint32(TileCount)` is a count below 2^32 |
| RenderSpec.CollectionFillMiss | render/renderer.go:104-118 | an image collection without an entry for the tile's id caches nothing and yields a nil image |
| RenderSpec.CollectionFillStores | render/renderer.go:116 | the image an image collection yields is the one stored under the tile's key, and nothing else in the cache changes |
| RenderSpec.CollectionFillLast | render/renderer.go:105-117 | a successful fill yields the image of the last `<tile>` entry with the tile's id, since the loop does not break |
| RenderSpec.AtlasFillSpec | render/renderer.go:131-137 | the atlas loop answers the requested tile's crop when its id is below the tile count, and a nil image otherwise |
| RenderSpec.AtlasFillCaches | render/renderer.go:131-133 | the atlas loop leaves the crop of every tile below the count in the cache under `FirstGID + i` |
| RenderSpec.AtlasStep | render/renderer.go:131-137 | one iteration caches crop i and moves on |
| RenderSpec.CropsKept | render/renderer.go:133 | caching crop i keeps the crops cached before it |
| RenderSpec.KeysDistinct | render/renderer.go:133 | distinct local ids below 2^32 get distinct cache keys, even where `FirstGID + i` wraps |
| RenderSpec.AtlasFillPanics | render/renderer.go:132 | when the atlas geometry panics, the first crop panics before anything is cached |
| RenderSpec.TileFillMemo | render/renderer.go:98-102 | once a tile's image was produced, asking again hits the cache and gives the same image |
| RenderSpec.SpanCells | render/renderer.go:189-195 | every cell of an inner loop is in row y, on the loop's stride from its start, with tile index `y * Width + x` |
| RenderSpec.SpanOrdered | render/renderer.go:190 | an inner loop runs left to right |
| RenderSpec.SpanCovers | render/renderer.go:190 | every column on the stride from the start is visited |
| RenderSpec.RowInGrid | render/renderer.go:188-204 | every cell visited in a row is a grid cell of that row |
| RenderSpec.RowOrdered | render/renderer.go:188-204 | a row is visited left to right, or on a hexagonal map even columns first and then odd ones |
| RenderSpec.RowCovers | render/renderer.go:188-204 | every column of a row is visited |
| RenderSpec.LayerCellsShape | render/renderer.go:166-208 | `_renderLayer` visits each cell of the grid exactly once, with its row-major tile index, row by row in the engine's order |
| RenderSpec.OrderedMeansDistinct | render/renderer.go:188-204 | a strictly ordered visit never visits a cell twice |
| RenderSpec.RunAppend | render/renderer.go:188-205 | drawing two runs of cells one after the other is drawing their concatenation |
| RenderSpec.RunSpanStep | render/renderer.go:190-195 | an inner loop draws its first cell and continues from the next column on the stride |
| RenderSpec.DrawnCellsExactly | render/renderer.go:144-146 | the cells drawn are exactly the visited cells whose tile is present and not nil |
| RenderSpec.TileStepDraws | render/renderer.go:143-164 | a tile step without error adds one blit exactly when the tile is not nil |
| RenderSpec.RunDraws | render/renderer.go:166-208 | drawing a layer only appends; without an error the new blits are, one for one and in order, those of the visited cells whose tile is not nil |
| RenderSpec.LayerRunGrows | render/renderer.go:166-208 | drawing a layer keeps what was drawn before, whatever its outcome |
| RenderSpec.DrawnLayerCells | render/renderer.go:166-208 | the drawn cells of a layer are grid cells in the engine's order |
| RenderSpec.OrthogonalLayerTiles | render/renderer.go:166-208 | an orthogonal layer drawn without an error puts each non-nil tile inside the final image, and no two of its tiles overlap |
| RenderSpec.OrthogonalCellsInside | render/orthogonal.go:40-64 | the blits of grid cells of an orthogonal map lie inside its final image |
| RenderSpec.OrthogonalCellsApart | render/orthogonal.go:59-64 | the blits of distinct cells of an orthogonal map do not overlap |
| RenderSpec.OrthogonalPairApart | render/orthogonal.go:59-64 | any two blits of cells drawn in row-major order do not overlap |
| RenderSpec.DrawnCellsShape | render/renderer.go:144-146 | skipping nil tiles keeps grid membership and visiting order |
| RenderSpec.Min4 | render/render_objects.go:223-229 | the minimum of the four corners is one of them and at most each |
| RenderSpec.UnrotatedOrigin | render/render_objects.go:199-231 | for an unrotated image of at least one pixel the origin point is its lower-left pixel (0, h-1) |
| RenderSpec.ObjectImage | render/render_objects.go:173-179 | an image with pixels gets the object's declared size, an image without pixels stays without pixels (`imaging.Resize` of an empty source), and an image that already has the declared size is left as is |
| RenderSpec.ObjectAnchoredBottomLeft | render/render_objects.go:173-194 | an unrotated object of positive size whose tile image has pixels is drawn at its declared size with its lower-left pixel on the object's position, through the group's opacity mask |
| RenderSpec.ObjectFromBlankImage | render/render_objects.go:173-194 | an unrotated object whose tile image has no pixels draws an image without pixels into an empty rectangle |
| RenderSpec.ResizeDecision | render/render_objects.go:177-179 | the image is resized exactly when its size differs from the object's, and otherwise only rotated |
| RenderSpec.AtlasObjectNotResized | render/render_objects.go:177-179 | an object with the tileset's tile size is drawn from the atlas crop without resizing |
| RenderSpec.VisibleLayers | render/renderer.go:231-244 | at most one target per layer |
| RenderSpec.VisibleLayersSound | render/renderer.go:233-236 | only visible layers of the list are drawn |
| RenderSpec.VisibleLayersComplete | render/renderer.go:233-240 | every visible layer of the list is drawn |
| RenderSpec.AllLayersVisible | render/renderer.go:231-244 | when every layer is visible each is drawn, in list order |
| RenderSpec.VisibleObjectGroups | render/render_objects.go:95-105 | at most one target per object group |
| RenderSpec.VisibleObjectGroupsSpec | render/render_objects.go:95-105 | exactly the visible object groups are drawn |
| RenderSpec.OnlyTopLevelGroupLayers | render/render_objects.go:37-80 | a layer that stands only in a nested group is never drawn by the group entry points |
| RenderSpec.VisibleLayersSnoc | render/renderer.go:233-240 | one more layer of the loop adds its target exactly when it is visible |
| RenderSpec.VisibleObjectGroupsSnoc | render/render_objects.go:96-103 | one more object group of the loop adds its target exactly when it is visible |
| RenderSpec.VisibleGroupsSnoc | render/render_objects.go:39-46 | one more group of the loop adds the targets of its contents exactly when it is visible |
| RenderSpec.ObjectArrayIndex | render/render_objects.go:117-118 | an object array of a list of object groups belongs to one of them |
| RenderSpec.ObjectsRunSnoc | render/render_objects.go:129-133 | handling one more object continues from where the earlier ones stopped, and after an error nothing more is drawn |
| RenderSpec.ObjectGroupsRunSnoc | render/render_objects.go:96-103 | drawing one more object group continues from where the earlier ones stopped; an error or an invisible group leaves the state as it was |
| RenderSpec.GroupsRunSnoc | render/render_objects.go:39-46 | drawing one more group continues from where the earlier ones stopped; an error or an invisible group leaves the state as it was |
| RenderSpec.DrawsSnoc | render/render_objects.go:96-103 | the record of one more object group, drawn sorted as a permutation of its objects, extends the records of the groups before it |
| RenderSpec.GroupsRecordedSnoc | render/render_objects.go:39-46 | the record of one more group, whose object groups are drawn as recorded, extends the records of the groups before it |
| Render.Renderer.constructor | render/renderer.go:76-86 | a new renderer holds the map, its engine and an empty cache, with a cleared result of the engine's final size |
| Render.Renderer.Clear | render/renderer.go:249-251 | the result becomes an empty raster of the engine's final image size; the cache is kept |
| Render.Renderer.GetTileImage | render/renderer.go:98-141 | the cache after the call is the fill of the tile's image collection or atlas on a miss, unchanged on a hit, and the image returned is the engine's rotation of the cached image; a missing image is returned as nil for an unflipped tile and is a nil-pointer panic for a flipped one |
| Render.Renderer.RenderTile | render/renderer.go:143-164 | a nil tile draws nothing; otherwise the tile image is drawn at the engine's position for the cell (on a hexagonal map the position `GetTilePosition` computes as written, with its `x * TileHeight` column stride), through the layer's opacity mask when the opacity is below 1; an image error is returned and nothing is drawn |
| Render.Renderer.RenderLayerTiles | render/renderer.go:166-208 | the cache, the blits and the error are those of `LayerRun`: the layer's cells drawn one `RenderTile` step at a time in the engine's order (row-major, or even columns then odd ones per row on a hexagonal map, at the as-written hexagonal positions), stopping at the first error; an orthogonal map whose render order is not right-down is `ErrUnsupportedRenderOrder` with nothing drawn; the layer is recorded as drawn only without an error |
| Render.Renderer.RenderRows | render/renderer.go:188-205 | the outer loop draws rows 0 to `Height - 1` in order |
| Render.Renderer.RenderRow | render/renderer.go:189-204 | one row is drawn left to right, or on a hexagonal map its even columns and then its odd ones |
| Render.Renderer.RenderSpan | render/renderer.go:190-203 | an inner loop draws the cells of its stride with the tile index kept at `y * Width + x` |
| Render.Renderer.RenderSpanTile | render/renderer.go:191-194 | one pass draws one cell and the rest of the loop continues from the next column |
| Render.Renderer.RenderLayer | render/renderer.go:223-229 | an index past the end is `ErrOutOfBounds` and a negative one panics, both drawing nothing; otherwise that layer is drawn |
| Render.Renderer.RenderGroupLayer | render/renderer.go:210-221 | an out-of-range group or layer index is `ErrOutOfBounds` (a panic when negative), drawing nothing; otherwise that layer of that group is drawn |
| Render.Renderer.RenderVisibleLayers | render/renderer.go:231-244 | the cache, the blits and the error are those of `LayersRun`: each visible map layer drawn as `LayerRun` draws it, in list order, invisible ones skipped, stopping at the first error; without an error exactly the visible layers are recorded |
| Render.Renderer.RenderVisibleLayerStep | render/renderer.go:235-241 | one pass draws map layer `i` when visible: without an error the remaining layers still lead to the same `LayersRun` state and the layer is recorded when visible; an error is that state |
| Render.Renderer.RenderVisibleLayersAndObjectGroups | render/render_objects.go:85-92 | the visible layers are drawn as `LayersRun` draws them; an error there is returned with no object group drawn; otherwise the state is that of `ObjectGroupsRun` over the map's object groups from where the layers stopped, each visible group drawn sorted as a permutation of its objects, every GID resolved as the map resolves it |
| Render.Renderer.RenderOneObject | render/render_objects.go:153-197 | an invisible object or GID 0 draws nothing; an unresolvable GID returns its error; otherwise the object is drawn from its resolved tile through the group's opacity mask |
| Render.Renderer.DrawObjectTile | render/render_objects.go:168-196 | the tile image is fetched through the cache, resized to the object's size when they differ, rotated and drawn with the group's mask |
| Render.Renderer.RenderObjects | render/render_objects.go:117-135 | the group's objects are sorted in place by (Y, X) as a permutation; the cache, the blits and the error are those of `ObjectsRun` over the sorted objects, each drawn as `renderOneObject` draws it from what its GID resolved to, stopping at the first error; every blit added is an object blit through the group's opacity mask |
| Render.Renderer.DrawObjects | render/render_objects.go:129-134 | the state is that of `ObjectsRun` over the objects in array order, stopping at the first error; each handled visible object with a non-zero GID saw its GID resolve as the map resolves it; all objects are handled when no error is returned |
| Render.Renderer.DrawObjectsStep | render/render_objects.go:129-133 | one pass of the loop extends the resolutions by one and keeps the state equal to `ObjectsRun` over them, leaving loaded tilesets and the map's resolutions unchanged |
| Render.Renderer.RenderObjectGroup | render/render_objects.go:107-115 | an out-of-range index is `ErrOutOfBounds` (a panic when negative) and changes nothing; otherwise that group's objects are sorted as a permutation and drawn as `ObjectsRun` says, and every object array of the map keeps its contents |
| Render.Renderer.RenderGroupObjectGroup | render/render_objects.go:137-151 | an out-of-range group or object group index is `ErrOutOfBounds` (a panic when negative) and changes nothing; otherwise that object group's objects are sorted as a permutation and drawn as `ObjectsRun` says |
| Render.Renderer.RenderVisibleObjectGroups | render/render_objects.go:94-105 | the state is that of `ObjectGroupsRun`: each visible map object group drawn as `RenderObjects` draws it, in list order, invisible ones skipped, stopping at the first error; every group keeps its objects as a permutation |
| Render.Renderer.RenderVisibleObjectGroupStep | render/render_objects.go:96-103 | one pass draws the object group at `i` when visible and keeps the state equal to `ObjectGroupsRun` over the records so far, with every group still a permutation of its objects |
| Render.Renderer.RenderObjectGroupAmong | render/render_objects.go:100 | a visible map object group is drawn as `RenderObjectGroup` draws it, sorted as a permutation of its objects, while the records of the object groups before it stay true |
| Render.Renderer.RenderGroupContents | render/render_objects.go:60-80 | the group's visible layers are drawn as `LayersRun` draws them; an error there is returned with no object group drawn; otherwise its visible object groups are drawn from there as `ObjectGroupsRun` says |
| Render.Renderer.RenderGroupLayers | render/render_objects.go:61-68 | the state is that of `LayersRun` over the group's layers: the visible ones drawn in order, stopping at the first error |
| Render.Renderer.RenderGroupLayerStep | render/render_objects.go:61-68 | one pass draws the group's layer `i` when visible: without an error the remaining layers still lead to the same `LayersRun` state; an error is that state |
| Render.Renderer.RenderGroupObjectGroups | render/render_objects.go:70-77 | the state is that of `ObjectGroupsRun` over the group's object groups: the visible ones sorted and drawn in order, stopping at the first error |
| Render.Renderer.RenderGroupObjectGroupsFrom | render/render_objects.go:70-77 | the loop itself: the same state, with every object group still holding the objects it started with |
| Render.Renderer.RenderGroupObjectGroupStep | render/render_objects.go:70-77 | one pass draws the group's object group at `j` when visible and keeps the state equal to `ObjectGroupsRun` over the records so far |
| Render.Renderer.RenderObjectsAmong | render/render_objects.go:74 | a visible object group of a group is drawn as `_renderObjectGroup` draws it, sorted as a permutation of its objects, while the records of the object groups before it stay true |
| Render.Renderer.RenderGroup | render/render_objects.go:50-58 | an out-of-range index is `ErrOutOfBounds` (a panic when negative) and changes nothing; otherwise the group's layers are drawn as `LayersRun` says and, unless they failed, its object groups as `ObjectGroupsRun` says |
| Render.Renderer.RenderVisibleGroups | render/render_objects.go:37-48 | every visible top-level group's object groups are drawn sorted from their objects as they were, in list order; when the groups' layers come from loaded tilesets the state is that of `GroupsRun`: each visible group drawn as `GroupRun` draws it, stopping at the first error |
| Render.Renderer.RenderVisibleGroupStep | render/render_objects.go:39-46 | one pass draws the group at `i` when visible, extends the records of the groups drawn, and, when the layers' tilesets are loaded, keeps the state equal to `GroupsRun` over them |
| Render.Renderer.RenderGroupKeeping | render/render_objects.go:43 | a visible group is drawn as `_renderGroup` draws it, and every object group of the map still holds a permutation of its objects |
| Render.Renderer.RenderGroupAmong | render/render_objects.go:43 | a visible group is drawn as `_renderGroup` draws it while the records of the groups before it stay true and the tilesets they read are left unchanged |
| Render.NewRendererWithFileSystem | render/renderer.go:74-89 | the call fails with `ErrUnsupportedOrientation` exactly when the orientation is neither orthogonal nor hexagonal; otherwise the renderer has that engine, an empty cache and a cleared result |
| Utils.SortObjectsLessIsLexicographic | internal/utils/utils.go:31-37 | the object comparator is the strict lexicographic order on (Y, X) |
| Utils.SortObjectsLessIsStrict | internal/utils/utils.go:31-37 | the comparator is irreflexive, asymmetric and transitive |
| Utils.SortObjectsLessIsTotal | utils/utils.go:9-15 | two objects neither of which is less than the other stand at the same point |
| Utils.AdjacentSortedObjects | internal/utils/utils.go:31-37 | for the object comparator, ordered neighbours mean every object is at or after every earlier one |
| Utils.Sortable.Swap | internal/utils/utils.go:53-57 | `Swap` exchanges positions i and j and moves nothing else |
| Utils.Sort | internal/utils/utils.go:39-46 | sorting through `Len`, `Less` and `Swap` leaves no neighbour pair out of order and permutes the elements |
| Utils.SortAny | utils/utils.go:17-24 | `SortAny` sorts the slice in place, as a permutation, and returns the same slice |
| Utils.SortObjects | render/render_objects.go:121-127 | sorting objects leaves them in ascending (Y, X) order, as a permutation |

## Left out

- XML unmarshalling is not modelled. This covers `Map.UnmarshalXML` (including its layer loop), `Layer.UnmarshalXML`, `Group.UnmarshalXML` and the `SetDefaults` hooks. The package's defaults (opacity 1, visible, render order "right-down") are constructor arguments of `Map`, `Layer`, `Group` and `ObjectGroup`.
- The file system is a parameter of the model. It covers `Renderer.open`, `GetFileFullPath`, and the reading and XML decoding of an external `.tsx` file in `initTileset`. Loading an external tileset is an oracle that answers a tileset or an error. `tiled.go` (`LoadFile`, `LoadReader`) is not part of this model.
- The base64 (section 4 of RFC 4648), gzip (RFC 1952) and zlib (RFC 1950) readers are opaque functions. Only the dispatch on the compression name, the trimming of the payload and the length check are modelled.
- Pixel operations are symbolic. An image is the record of the `image.Decode`, `imaging.Crop`, `FlipH`, `FlipV`, `Rotate90`, `Rotate270`, `Resize` and `Rotate` calls that produced it. `draw.Draw` and `draw.DrawMask` add an entry to the blit log. The float32 opacity-to-alpha conversion is not modelled: the mask carries the opacity as a real.
- `_rotateObjectImage` is modelled for the unrotated case only. Its floating-point trigonometry, and the bounding box of a rotated object, are left unknown.
- `SaveAsPng`, `SaveAsJpeg` and `SaveAsGif` are image encoding and I/O and are not modelled. Neither is `NewRenderer`, which only supplies the operating system's file system.
- `HexColor.RGBA` and `HexColor.MarshalXMLAttr` are not modelled. They only convert to Go's `color` interface and back to text through `String`.
- Wang sets are not modelled: `GetWangColors` is not part of this model.
- `Properties.GetInt` and `Properties.GetFloat` are not part of this model.
- render/render_objects.go:121 calls `utils.SortAnySlice`, which internal/utils/utils.go does not define (it defines `SortAny`); the call is modelled by `SortAny` (internal/utils/utils.go:39-46).
- Utils.Sort: `sort.Sort` is modelled as an insertion sort through `Len`, `Less` and `Swap`. Its contract states what the package relies on: no neighbour pair is out of order, and the elements are permuted. It does not state which of several equal elements comes first, because the standard library does not promise that either.
- Go slices the renderer sorts or mutates are Dafny arrays. Other slices are sequences, so aliasing between two slices that share a backing array is not modelled.
- Integers are unbounded. The product `Width * Height` and the pixel arithmetic of the engines are not wrapped to 64 bits. GIDs, the bytes of the base64 payload and the colour channels are fixed-width, as in the package.
- `Map.TileGIDToTile` calls `initTileset` on the tileset stub every time, and an external tileset is reloaded each time, because the loaded record is never stored back into `Map.Tilesets`. The model follows the code.
- Image layers and nested groups are never drawn, and a group's opacity is not applied to its layers. The model follows the code.
- An object is anchored at its bottom-left corner: its image is drawn with its lower edge at the object's Y, as `renderOneObject` computes the destination. The model follows the code.
- GoText.TrimSpace: only ASCII white space (tab, line feed, vertical tab, form feed, carriage return and space) is trimmed. Go's `bytes.TrimSpace` also trims Unicode white space such as U+0085 and U+00A0 when the payload holds them as UTF-8; the model does not.
- The `Visible` field of an object is a plain boolean, as `tmx_object.go` declares it. Elsewhere in the package it is a pointer to a boolean; that form is not part of this model.
- Render.Renderer.RenderVisibleLayers: the layers recorded as drawn are stated only when no error is returned. The cache, the blits and the error are stated in every case.
- Render.Renderer.RenderVisibleLayersAndObjectGroups: as above, the layers and object groups recorded are stated only when no error is returned.
- Render.Renderer.RenderVisibleObjectGroups: as above, the object groups recorded are stated only when no error is returned. The contract does not promise that loaded tilesets are left unchanged.
- Render.Renderer.RenderGroupContents: as above, the layers and object groups recorded are stated only when no error is returned.
- Render.Renderer.RenderGroupLayers: as above, the layers recorded are stated only when no error is returned.
- Render.Renderer.RenderGroupObjectGroups: as above, the object groups recorded are stated only when no error is returned.
- Render.Renderer.RenderVisibleGroups: the cache, the blits and the error are stated as `GroupsRun` only when every tile of the groups' layers comes from a loaded tileset at the start; the groups recorded are stated only when no error is returned. `Map.UnmarshalXML` decodes the payloads of the map's own layers only (tmx_map.go:170-176), so the layers of a group keep no tiles: that premise holds trivially for a decoded map, and a visible layer of a visible group on a map with at least one cell stops the render with an index-out-of-range panic (render/renderer.go:144), which the model returns as `Panic`.
- Render.Renderer.RenderOneObject: the destination of a rotated object, or of an object whose image size is unknown, is left unknown.
- RenderSpec.ObjectImage: the size after `imaging.Resize` is stated only for a tile image whose size is known. A resize to one zero side keeps the aspect ratio in floating point and is left unknown.
- Canvas.DrawnArea: the destination's bounds are a parameter. The hexagonal lemmas pass the final image size; the blit log of the renderer records the destination rectangle before the clip.
- The renderer's record of the layers, object groups and objects it has drawn is ghost state. It exists only to state drawing order.

## Findings

| source | as written | input that shows it | evidently intended | confidence | as-written member | corrected member |
|---|---|---|---|---|---|---|
| tmx_object.go:149-153 | `Points.UnmarshalXML` writes each parsed coordinate through the previous `*m` and then replaces `*m` with a fresh slice of zero points | the attribute "1,2" over a list holding one point (5,5) leaves the point (0,0); over an empty list it panics with an index out of range | each coordinate is stored in the new slice, so that the attribute "1,2" reads as the point (1,2) | not executed | TmxObject.AsWrittenDropsCoordinates | TmxObject.PointsRoundTrip |
| render/hexagonal.go:90 | with the stagger axis on Y, the column stride of `GetTilePosition` is `x * TileHeight` | a Y-staggered map of 32 by 16 pixel tiles: cells (0,0) and (1,0) are drawn over each other; a 2 by 2 map of 16 by 32 pixel tiles: cell (1,0) reaches past the 40-pixel-wide final image | the column stride is `x * TileWidth`, so that the cells of a row sit side by side inside the final image | not executed | Hexagonal.AsWrittenNeighboursOverlap | Hexagonal.RowCellsDisjoint |

The renderer draws hexagonal maps at the positions `GetTilePosition` computes as written (`Engine.TilePosition` uses `Hexagonal.TilePositionAsWritten`). The corrected position `Hexagonal.TilePosition` is modelled beside it, and the lemmas marked "(corrected)" above are proved about it.

/** Raw layer payloads (`Data`): CSV text and base64, optionally compressed. */
module TmxData {
  import opened Errors
  import opened GoText

  /** The `<data>` element of a layer. `dataTiles` holds the `gid` attribute of each
      `<tile>` child (only used by the XML encoding). */
  datatype Data = Data(encoding: string, compression: string, rawData: seq<byte>, dataTiles: seq<bv32>)

  /** Byte-stream decoders outside the model: base64 with the standard alphabet
      (section 4 of RFC 4648), gzip (RFC 1952) and zlib (RFC 1950). Each reads a
      whole stream and returns its bytes or the decoder's error. */
  datatype Codecs = Codecs(
    base64: seq<byte> -> Result<seq<byte>>,
    gunzip: seq<byte> -> Result<seq<byte>>,
    inflate: seq<byte> -> Result<seq<byte>>)

  // ---------------------------------------------------------------------------
  // Base64 payloads

  /** `decodeBase64`: trim, base64-decode, then decompress according to the
      `compression` attribute. */
  function DecodeBase64(d: Data, codecs: Codecs): (r: Result<seq<byte>>)
    ensures d.compression !in {"gzip", "zlib", ""} ==> r == Err(ErrUnknownCompression)
    ensures d.compression == "" ==> r == codecs.base64(TrimSpace(d.rawData))
    ensures d.compression == "gzip" ==>
              r == (match codecs.base64(TrimSpace(d.rawData))
                    case Err(e) => Err(e)
                    case Ok(z) => codecs.gunzip(z))
    ensures d.compression == "zlib" ==>
              r == (match codecs.base64(TrimSpace(d.rawData))
                    case Err(e) => Err(e)
                    case Ok(z) => codecs.inflate(z))
  {
    if d.compression !in {"gzip", "zlib", ""} then Err(ErrUnknownCompression)
    else
      var decoded :- codecs.base64(TrimSpace(d.rawData));
      if d.compression == "gzip" then codecs.gunzip(decoded)
      else if d.compression == "zlib" then codecs.inflate(decoded)
      else Ok(decoded)
  }

  /** White space around the payload does not change the decoded bytes. */
  lemma DecodeBase64IgnoresPadding(d: Data, w1: seq<byte>, w2: seq<byte>, codecs: Codecs)
    requires AllSpace(w1) && AllSpace(w2)
    ensures DecodeBase64(d.(rawData := w1 + d.rawData + w2), codecs) == DecodeBase64(d, codecs)
  {
    TrimSpaceIgnoresPadding(w1, d.rawData, w2);
  }

  // ---------------------------------------------------------------------------
  // CSV payloads

  /** The `cleaner` of `decodeCSV`: keeps ASCII digits and commas, drops everything else. */
  predicate Kept(b: byte) { IsDigit(b) || b == Comma }

  function Clean(s: seq<byte>): (r: seq<byte>)
    ensures |r| <= |s|
    ensures forall k :: 0 <= k < |r| ==> Kept(r[k])
    ensures forall b :: b in r <==> b in s && Kept(b)
  {
    if |s| == 0 then []
    else if Kept(s[0]) then [s[0]] + Clean(s[1..])
    else Clean(s[1..])
  }

  lemma {:induction false} CleanAppend(a: seq<byte>, b: seq<byte>)
    ensures Clean(a + b) == Clean(a) + Clean(b)
    decreases |a|
  {
    if |a| == 0 {
      assert a + b == b;
    } else {
      assert (a + b)[1..] == a[1..] + b;
      CleanAppend(a[1..], b);
    }
  }

  /** Text that already holds only digits and commas passes through unchanged. */
  lemma {:induction false} CleanKeepsCleanText(s: seq<byte>)
    requires forall k :: 0 <= k < |s| ==> Kept(s[k])
    ensures Clean(s) == s
    decreases |s|
  {
    if |s| > 0 {
      CleanKeepsCleanText(s[1..]);
      assert s == [s[0]] + s[1..];
    }
  }

  lemma {:induction false} CleanKeepsCommas(s: seq<byte>)
    ensures Count(Clean(s), Comma) == Count(s, Comma)
    decreases |s|
  {
    if |s| > 0 {
      CleanKeepsCommas(s[1..]);
      if Kept(s[0]) {
        assert Clean(s) == [s[0]] + Clean(s[1..]);
        assert ([s[0]] + Clean(s[1..]))[1..] == Clean(s[1..]);
      }
    }
  }

  /** Parse every token in order; the first failing token decides the error. */
  function ParseAll(tokens: seq<seq<byte>>): (r: Result<seq<bv32>>)
    ensures r.Ok? ==> |r.value| == |tokens|
  {
    if |tokens| == 0 then Ok([])
    else
      var g :- ParseUint32(tokens[0]);
      var rest :- ParseAll(tokens[1..]);
      Ok([g] + rest)
  }

  lemma {:induction false} ParseAllOk(tokens: seq<seq<byte>>, gids: seq<bv32>)
    requires |gids| == |tokens|
    requires forall k :: 0 <= k < |tokens| ==> ParseUint32(tokens[k]) == Ok(gids[k])
    ensures ParseAll(tokens) == Ok(gids)
    decreases |tokens|
  {
    if |tokens| > 0 {
      ParseAllOk(tokens[1..], gids[1..]);
      assert [gids[0]] + gids[1..] == gids;
    }
  }

  lemma {:induction false} ParseAllFirstError(tokens: seq<seq<byte>>, i: nat)
    requires i < |tokens|
    requires forall k :: 0 <= k < i ==> ParseUint32(tokens[k]).Ok?
    requires ParseUint32(tokens[i]).Err?
    ensures ParseAll(tokens) == Err(ParseUint32(tokens[i]).error)
    decreases i
  {
    if i > 0 {
      ParseAllFirstError(tokens[1..], i - 1);
    }
  }

  /** The i-th GID of a successful parse is the value of the i-th token. */
  lemma {:induction false} ParseAllElements(tokens: seq<seq<byte>>)
    requires ParseAll(tokens).Ok?
    ensures forall k :: 0 <= k < |tokens| ==> ParseUint32(tokens[k]) == Ok(ParseAll(tokens).value[k])
    decreases |tokens|
  {
    if |tokens| > 0 {
      ParseAllElements(tokens[1..]);
    }
  }

  /** The meaning of a CSV payload: clean, split on commas, parse every token. */
  function CsvGids(raw: seq<byte>): Result<seq<bv32>>
  {
    ParseAll(Split(Clean(raw), Comma))
  }

  /** `decodeCSV`: fills one GID per token, stopping at the first parse error. */
  method DecodeCSV(d: Data) returns (r: Result<seq<bv32>>)
    ensures r == CsvGids(d.rawData)
  {
    var tokens := Split(Clean(d.rawData), Comma);
    var gids := new bv32[|tokens|];
    var i := 0;
    while i < |tokens|
      invariant 0 <= i <= |tokens|
      invariant forall k :: 0 <= k < i ==> ParseUint32(tokens[k]) == Ok(gids[k])
    {
      var id := ParseUint32(tokens[i]);
      if id.Err? {
        ParseAllFirstError(tokens, i);
        return Err(id.error);
      }
      gids[i] := id.value;
      i := i + 1;
    }
    ParseAllOk(tokens, gids[..]);
    r := Ok(gids[..]);
  }

  /** A successful CSV decode yields one GID per comma-separated token, each the
      token's value, and the count is the number of commas plus one: white space
      and any other character are dropped, not treated as separators. */
  lemma CsvGidsSpec(raw: seq<byte>)
    ensures CsvGids(raw).Ok? ==> |CsvGids(raw).value| == Count(raw, Comma) + 1
    ensures CsvGids(raw).Ok? ==>
              forall k :: 0 <= k < |Split(Clean(raw), Comma)| ==>
                ParseUint32(Split(Clean(raw), Comma)[k]) == Ok(CsvGids(raw).value[k])
  {
    CleanKeepsCommas(raw);
    if CsvGids(raw).Ok? {
      ParseAllElements(Split(Clean(raw), Comma));
    }
  }

  /** A payload without any digit or comma (for instance only white space) has one
      empty token and is a syntax error; so is a trailing comma. */
  lemma CsvEmptyTokenFails(raw: seq<byte>, a: seq<byte>)
    ensures Clean(raw) == [] ==> CsvGids(raw) == Err(ErrSyntax)
    ensures Clean(raw) == a + [Comma] && (forall k :: 0 <= k < |a| ==> Kept(a[k])) ==> CsvGids(raw).Err?
  {
    if Clean(raw) == a + [Comma] && (forall k :: 0 <= k < |a| ==> Kept(a[k])) {
      var t := Split(Clean(raw), Comma);
      var k := |t| - 1;
      SplitTrailingSeparator(a, Comma);
      if forall j :: 0 <= j < k ==> ParseUint32(t[j]).Ok? {
        ParseAllFirstError(t, k);
      } else {
        var j :| 0 <= j < k && ParseUint32(t[j]).Err?;
        FirstFailure(t, j);
      }
    }
  }

  /** Some token fails, so the whole parse fails. */
  lemma {:induction false} FirstFailure(t: seq<seq<byte>>, j: nat)
    requires j < |t| && ParseUint32(t[j]).Err?
    ensures ParseAll(t).Err?
    decreases j
  {
    if j > 0 && ParseUint32(t[0]).Ok? {
      FirstFailure(t[1..], j - 1);
    }
  }

  function FormatCsv(gids: seq<bv32>): seq<byte>
    requires |gids| > 0
  {
    Join(seq(|gids|, k requires 0 <= k < |gids| => FormatDec(gids[k] as nat)), Comma)
  }

  lemma {:induction false} JoinKept(pieces: seq<seq<byte>>)
    requires |pieces| > 0
    requires forall k :: 0 <= k < |pieces| ==> AllDigits(pieces[k])
    ensures forall k :: 0 <= k < |Join(pieces, Comma)| ==> Kept(Join(pieces, Comma)[k])
    decreases |pieces|
  {
    if |pieces| > 1 {
      JoinKept(pieces[1..]);
    }
  }

  /** Round trip: the CSV rendering of a non-empty GID list decodes to that list. */
  lemma CsvRoundTrip(gids: seq<bv32>)
    requires |gids| > 0
    ensures CsvGids(FormatCsv(gids)) == Ok(gids)
  {
    var pieces := seq(|gids|, k requires 0 <= k < |gids| => FormatDec(gids[k] as nat));
    JoinKept(pieces);
    CleanKeepsCleanText(Join(pieces, Comma));
    forall k | 0 <= k < |pieces|
      ensures Comma !in pieces[k]
    {
      assert AllDigits(pieces[k]);
    }
    SplitJoin(pieces, Comma);
    forall k | 0 <= k < |pieces|
      ensures ParseUint32(pieces[k]) == Ok(gids[k])
    {
      ParseFormatDec(gids[k]);
    }
    ParseAllOk(pieces, gids);
  }
}

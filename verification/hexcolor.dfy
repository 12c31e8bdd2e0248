/** `HexColor`: colours written as `#AARRGGBB`, `#RRGGBB`, `#ARGB` or `#RGB`
    (alpha first, unlike CSS), parsed into an RGBA value and formatted back. */
module HexColors {
  import opened Errors
  import opened GoText

  /** Go's `uint8`. */
  type u8 = x: int | 0 <= x < 256

  /** `color.RGBA`. */
  datatype RGBA = RGBA(r: u8, g: u8, b: u8, a: u8)

  const Hash: byte := 0x23

  predicate IsHexDigit(b: byte)
  {
    var n := b as int;
    (0x30 <= n <= 0x39) || (0x61 <= n <= 0x66) || (0x41 <= n <= 0x46)
  }

  /** An upper-case hex letter. */
  predicate IsUpperHex(b: byte)
  {
    0x41 <= b as int <= 0x46
  }

  predicate AllHex(s: seq<byte>)
  {
    forall i :: 0 <= i < |s| ==> IsHexDigit(s[i])
  }

  /** Hex digits written in lower case only. */
  predicate LowerHex(s: seq<byte>)
  {
    forall i :: 0 <= i < |s| ==> IsHexDigit(s[i]) && !IsUpperHex(s[i])
  }

  /** The `hexToByte` closure: the value of a hex digit of either case; any
      other character gives 0 (and makes the whole parse fail). */
  function HexToByte(b: byte): (n: nat)
    ensures n < 16
    ensures !IsHexDigit(b) ==> n == 0
  {
    var n := b as int;
    if 0x30 <= n <= 0x39 then n - 0x30
    else if 0x61 <= n <= 0x66 then n - 0x61 + 10
    else if 0x41 <= n <= 0x46 then n - 0x41 + 10
    else 0
  }

  /** `strings.TrimPrefix(s, "#")`: at most one leading '#' is removed. */
  function TrimHash(s: seq<byte>): seq<byte>
  {
    if |s| > 0 && s[0] == Hash then s[1..] else s
  }

  /** `hexToByte(s[i])<<4 + hexToByte(s[i+1])`: two digits make one channel. */
  function Pair(t: seq<byte>, i: nat): u8
    requires i + 1 < |t|
  {
    HexToByte(t[i]) * 16 + HexToByte(t[i + 1])
  }

  /** `hexToByte(s[i]) * 17`: one digit repeated, so `f` stands for `ff`. */
  function Doubled(t: seq<byte>, i: nat): u8
    requires i < |t|
  {
    HexToByte(t[i]) * 17
  }

  /** The colour is kept only when no character was rejected by `hexToByte`. */
  function Checked(t: seq<byte>, c: RGBA): Result<RGBA>
  {
    if AllHex(t) then Ok(c) else Err(ErrInvalidFormat)
  }

  /** Strings the parser accepts, after the optional '#'. */
  predicate WellFormed(t: seq<byte>)
  {
    (|t| == 3 || |t| == 4 || |t| == 6 || |t| == 8) && AllHex(t)
  }

  /** The `switch len(s)` of `parseHexColor`, on the text after the '#'. */
  function ParseDigits(t: seq<byte>): (r: Result<RGBA>)
    ensures r.Ok? <==> WellFormed(t)
    ensures r.Err? ==> r.error == ErrInvalidFormat
    ensures r.Ok? && (|t| == 3 || |t| == 6) ==> r.value.a == 255
    ensures r.Ok? && |t| <= 4 ==>
              r.value.r % 17 == 0 && r.value.g % 17 == 0 && r.value.b % 17 == 0 && r.value.a % 17 == 0
  {
    if |t| == 8 then Checked(t, RGBA(Pair(t, 2), Pair(t, 4), Pair(t, 6), Pair(t, 0)))
    else if |t| == 6 then Checked(t, RGBA(Pair(t, 0), Pair(t, 2), Pair(t, 4), 255))
    else if |t| == 4 then Checked(t, RGBA(Doubled(t, 1), Doubled(t, 2), Doubled(t, 3), Doubled(t, 0)))
    else if |t| == 3 then Checked(t, RGBA(Doubled(t, 0), Doubled(t, 1), Doubled(t, 2), 255))
    else Err(ErrInvalidFormat)
  }

  /** `ParseHexColor` / `parseHexColor`: an optional '#', then 3, 4, 6 or 8 hex
      digits. */
  function ParseHexColor(s: seq<byte>): Result<RGBA>
  {
    ParseDigits(TrimHash(s))
  }

  /** The digit table of `hex.Encode`: "0123456789abcdef". */
  const LowerDigits: seq<byte> :=
    [0x30, 0x31, 0x32, 0x33, 0x34, 0x35, 0x36, 0x37, 0x38, 0x39, 0x61, 0x62, 0x63, 0x64, 0x65, 0x66]

  /** A lower-case hex digit, as `hex.Encode` writes it. */
  function HexChar(n: nat): byte
    requires n < 16
  {
    LowerDigits[n]
  }

  /** `HexChar` writes a lower-case digit that reads back as `n`. */
  lemma HexCharReadsBack(n: nat)
    requires n < 16
    ensures IsHexDigit(HexChar(n)) && !IsUpperHex(HexChar(n)) && HexToByte(HexChar(n)) == n
  {
  }

  /** Two hex digits for one channel. */
  function Hex2(v: u8): seq<byte>
  {
    [HexChar(v / 16), HexChar(v % 16)]
  }

  /** The two digits of a channel are lower-case and read back as the channel. */
  lemma Hex2ReadsBack(v: u8)
    ensures |Hex2(v)| == 2 && LowerHex(Hex2(v)) && AllHex(Hex2(v)) && Pair(Hex2(v), 0) == v
  {
    HexCharReadsBack(v / 16);
    HexCharReadsBack(v % 16);
  }

  /** `HexColor.String`: '#', then the alpha channel unless it is opaque, then
      red, green and blue. */
  function Format(c: RGBA): seq<byte>
  {
    var rgb := Hex2(c.r) + Hex2(c.g) + Hex2(c.b);
    if c.a == 255 then [Hash] + rgb else [Hash] + (Hex2(c.a) + rgb)
  }

  /** The formatted colour is '#' and seven or nine characters: lower-case hex
      digits, with the alpha pair only for a translucent colour. */
  lemma FormatShape(c: RGBA)
    ensures |Format(c)| == (if c.a == 255 then 7 else 9)
    ensures Format(c)[0] == Hash && LowerHex(Format(c)[1..])
  {
    Hex2ReadsBack(c.a);
    Hex2ReadsBack(c.r);
    Hex2ReadsBack(c.g);
    Hex2ReadsBack(c.b);
    var rgb := Hex2(c.r) + Hex2(c.g) + Hex2(c.b);
    assert LowerHex(rgb);
    assert Format(c)[1..] == if c.a == 255 then rgb else Hex2(c.a) + rgb;
  }

  /** A pair of digits reads the same wherever it stands. */
  lemma PairInside(pre: seq<byte>, d: seq<byte>, post: seq<byte>)
    requires |d| == 2
    ensures Pair(pre + d + post, |pre|) == Pair(d, 0)
  {
    var t := pre + d + post;
    assert t[|pre|] == d[0] && t[|pre| + 1] == d[1];
  }

  lemma AllHexJoin(s: seq<byte>, t: seq<byte>)
    requires AllHex(s) && AllHex(t)
    ensures AllHex(s + t)
  {
    assert forall i :: |s| <= i < |s + t| ==> (s + t)[i] == t[i - |s|];
  }

  /** Three well-formed pairs parse as red, green and blue of an opaque colour. */
  lemma SixDigits(x: seq<byte>, y: seq<byte>, z: seq<byte>)
    requires |x| == 2 && |y| == 2 && |z| == 2
    requires AllHex(x) && AllHex(y) && AllHex(z)
    ensures ParseDigits(x + y + z) == Ok(RGBA(Pair(x, 0), Pair(y, 0), Pair(z, 0), 255))
  {
    var t := x + y + z;
    assert AllHex(t) by {
      AllHexJoin(x, y);
      AllHexJoin(x + y, z);
    }
    assert Pair(t, 0) == Pair(x, 0) by {
      PairInside([], x, y + z);
      assert [] + x + (y + z) == t;
    }
    assert Pair(t, 2) == Pair(y, 0) by {
      PairInside(x, y, z);
    }
    assert Pair(t, 4) == Pair(z, 0) by {
      PairInside(x + y, z, []);
      assert x + y + z + [] == t;
    }
  }

  /** Four well-formed pairs parse as alpha, red, green and blue. */
  lemma EightDigits(w: seq<byte>, x: seq<byte>, y: seq<byte>, z: seq<byte>)
    requires |w| == 2 && |x| == 2 && |y| == 2 && |z| == 2
    requires AllHex(w) && AllHex(x) && AllHex(y) && AllHex(z)
    ensures ParseDigits(w + x + y + z) == Ok(RGBA(Pair(x, 0), Pair(y, 0), Pair(z, 0), Pair(w, 0)))
  {
    var t := w + x + y + z;
    assert AllHex(t) by {
      AllHexJoin(w, x);
      AllHexJoin(w + x, y);
      AllHexJoin(w + x + y, z);
    }
    assert Pair(t, 0) == Pair(w, 0) by {
      PairInside([], w, x + y + z);
      assert [] + w + (x + y + z) == t;
    }
    assert Pair(t, 2) == Pair(x, 0) by {
      PairInside(w, x, y + z);
      assert w + x + (y + z) == t;
    }
    assert Pair(t, 4) == Pair(y, 0) by {
      PairInside(w + x, y, z);
    }
    assert Pair(t, 6) == Pair(z, 0) by {
      PairInside(w + x + y, z, []);
      assert w + x + y + z + [] == t;
    }
  }

  /** One digit per channel: "#RGB" is an opaque colour and "#ARGB" puts
      alpha first; each digit d stands for the channel value 17 * d. */
  lemma ShortDigits(t: seq<byte>)
    requires (|t| == 3 || |t| == 4) && AllHex(t)
    ensures |t| == 3 ==>
              ParseDigits(t) == Ok(RGBA(17 * HexToByte(t[0]), 17 * HexToByte(t[1]), 17 * HexToByte(t[2]), 255))
    ensures |t| == 4 ==>
              ParseDigits(t) == Ok(RGBA(17 * HexToByte(t[1]), 17 * HexToByte(t[2]), 17 * HexToByte(t[3]), 17 * HexToByte(t[0])))
  {
  }

  lemma OpaqueRoundTrip(c: RGBA)
    requires c.a == 255
    ensures ParseDigits(Format(c)[1..]) == Ok(c)
  {
    assert Format(c)[1..] == Hex2(c.r) + Hex2(c.g) + Hex2(c.b);
    Hex2ReadsBack(c.r);
    Hex2ReadsBack(c.g);
    Hex2ReadsBack(c.b);
    SixDigits(Hex2(c.r), Hex2(c.g), Hex2(c.b));
  }

  lemma TranslucentDigits(a: u8, r: u8, g: u8, b: u8)
    ensures ParseDigits(Hex2(a) + Hex2(r) + Hex2(g) + Hex2(b)) == Ok(RGBA(r, g, b, a))
  {
    Hex2ReadsBack(a);
    Hex2ReadsBack(r);
    Hex2ReadsBack(g);
    Hex2ReadsBack(b);
    EightDigits(Hex2(a), Hex2(r), Hex2(g), Hex2(b));
  }

  lemma TranslucentRoundTrip(c: RGBA)
    requires c.a != 255
    ensures ParseDigits(Format(c)[1..]) == Ok(c)
  {
    assert Format(c)[1..] == Hex2(c.a) + Hex2(c.r) + Hex2(c.g) + Hex2(c.b);
    TranslucentDigits(c.a, c.r, c.g, c.b);
  }

  /** Formatting and parsing back gives the same colour, for every colour. */
  lemma FormatRoundTrip(c: RGBA)
    ensures ParseHexColor(Format(c)) == Ok(c)
  {
    assert TrimHash(Format(c)) == Format(c)[1..];
    if c.a == 255 {
      OpaqueRoundTrip(c);
    } else {
      TranslucentRoundTrip(c);
    }
  }

  /** The leading '#' is optional. */
  lemma HashIsOptional(s: seq<byte>)
    requires |s| == 0 || s[0] != Hash
    ensures ParseHexColor([Hash] + s) == ParseHexColor(s)
  {
    assert TrimHash([Hash] + s) == s;
  }

  /** ASCII lower-casing of one character. */
  function LowerAscii(b: byte): byte
  {
    if 0x41 <= b as int <= 0x5A then (b as int + 0x20) as byte else b
  }

  function Lower(s: seq<byte>): (r: seq<byte>)
    ensures |r| == |s| && forall i :: 0 <= i < |s| ==> r[i] == LowerAscii(s[i])
  {
    seq(|s|, i requires 0 <= i < |s| => LowerAscii(s[i]))
  }

  /** Lower-casing keeps hex digits hex and their values unchanged. */
  lemma LowerKeepsDigit(b: byte)
    ensures IsHexDigit(LowerAscii(b)) <==> IsHexDigit(b)
    ensures HexToByte(LowerAscii(b)) == HexToByte(b)
  {
  }

  /** Two digit strings that agree position by position on validity and
      value parse alike. */
  lemma SameDigits(t: seq<byte>, u: seq<byte>)
    requires |t| == |u|
    requires forall i :: 0 <= i < |t| ==> (IsHexDigit(u[i]) <==> IsHexDigit(t[i]))
    requires forall i :: 0 <= i < |t| ==> HexToByte(u[i]) == HexToByte(t[i])
    ensures ParseDigits(u) == ParseDigits(t)
  {
    assert AllHex(u) <==> AllHex(t);
  }

  /** Hex digits are read without regard to case. */
  lemma CaseInsensitive(s: seq<byte>)
    ensures ParseHexColor(Lower(s)) == ParseHexColor(s)
  {
    var t, u := TrimHash(s), TrimHash(Lower(s));
    assert |u| == |t| && forall i :: 0 <= i < |t| ==> u[i] == LowerAscii(t[i]);
    forall i | 0 <= i < |t|
      ensures IsHexDigit(u[i]) <==> IsHexDigit(t[i])
      ensures HexToByte(u[i]) == HexToByte(t[i])
    {
      LowerKeepsDigit(t[i]);
    }
    SameDigits(t, u);
  }

  /** Any length other than 3, 4, 6 or 8 is rejected, whatever the characters. */
  lemma BadLengthFails(s: seq<byte>)
    requires |TrimHash(s)| !in {3, 4, 6, 8}
    ensures ParseHexColor(s) == Err(ErrInvalidFormat)
  {
  }

  /** `NewHexColor`: each `uint32` argument is narrowed to its low 8 bits. */
  function NewHexColor(r: nat, g: nat, b: nat, a: nat): (c: RGBA)
    requires r <= MaxUint32 && g <= MaxUint32 && b <= MaxUint32 && a <= MaxUint32
    ensures (r - c.r) % 256 == 0 && (g - c.g) % 256 == 0 && (b - c.b) % 256 == 0 && (a - c.a) % 256 == 0
    ensures r < 256 && g < 256 && b < 256 && a < 256 ==> c == RGBA(r, g, b, a)
  {
    RGBA(r % 256, g % 256, b % 256, a % 256)
  }

  /** A row of the package's parsing table: "#aabbcc". */
  lemma ParseExampleLower()
    ensures ParseHexColor([Hash, 0x61, 0x61, 0x62, 0x62, 0x63, 0x63]) == Ok(RGBA(170, 187, 204, 255))
  {
  }

  /** A row of the package's parsing table: "#010203". */
  lemma ParseExampleSmall()
    ensures ParseHexColor([Hash, 0x30, 0x31, 0x30, 0x32, 0x30, 0x33]) == Ok(RGBA(1, 2, 3, 255))
  {
  }

  /** A row of the package's parsing table: "#ABCDEF". */
  lemma ParseExampleUpper()
    ensures ParseHexColor([Hash, 0x41, 0x42, 0x43, 0x44, 0x45, 0x46]) == Ok(RGBA(171, 205, 239, 255))
  {
  }

  /** The parsing table of the package tests: eight digits. */
  lemma ParseExampleEight()
    // "#aabbccdd"
    ensures ParseHexColor([Hash, 0x61, 0x61, 0x62, 0x62, 0x63, 0x63, 0x64, 0x64]) == Ok(RGBA(187, 204, 221, 170))
  {
  }

  /** The parsing table of the package tests: one digit per channel. */
  lemma ParseExamplesShort()
    // "#fff", "#ffff"
    ensures ParseHexColor([Hash, 0x66, 0x66, 0x66]) == Ok(RGBA(255, 255, 255, 255))
    ensures ParseHexColor([Hash, 0x66, 0x66, 0x66, 0x66]) == Ok(RGBA(255, 255, 255, 255))
  {
  }

  /** A row of the package's formatting table: "#ffffff". */
  lemma FormatExampleWhite()
    ensures Format(NewHexColor(255, 255, 255, 255)) == [Hash, 0x66, 0x66, 0x66, 0x66, 0x66, 0x66]
  {
  }

  /** A row of the package's formatting table: "#102030". */
  lemma FormatExampleChannels()
    ensures Format(NewHexColor(16, 32, 48, 255)) == [Hash, 0x31, 0x30, 0x32, 0x30, 0x33, 0x30]
  {
  }

  /** A row of the package's formatting table: "#010203". */
  lemma FormatExampleSmall()
    ensures Format(NewHexColor(1, 2, 3, 255)) == [Hash, 0x30, 0x31, 0x30, 0x32, 0x30, 0x33]
  {
  }

  /** A row of the package's formatting table: "#00ffffff". */
  lemma FormatExampleClearWhite()
    ensures Format(NewHexColor(255, 255, 255, 0)) == [Hash, 0x30, 0x30, 0x66, 0x66, 0x66, 0x66, 0x66, 0x66]
  {
  }

  /** A row of the package's formatting table: "#80ffffff". */
  lemma FormatExampleHalfWhite()
    ensures Format(NewHexColor(255, 255, 255, 128)) == [Hash, 0x38, 0x30, 0x66, 0x66, 0x66, 0x66, 0x66, 0x66]
  {
  }

  /** A row of the package's formatting table: "#00000000". */
  lemma FormatExampleClearBlack()
    ensures Format(NewHexColor(0, 0, 0, 0)) == [Hash, 0x30, 0x30, 0x30, 0x30, 0x30, 0x30, 0x30, 0x30]
  {
  }

  /** `HexColor`: a colour the XML decoder updates in place. */
  class HexColor {
    var c: RGBA

    constructor (c: RGBA)
      ensures this.c == c
    {
      this.c := c;
    }

    /** `String`. */
    function String(): seq<byte>
      reads this
    {
      Format(c)
    }

    /** `UnmarshalXMLAttr`: a malformed value leaves the colour as it was. */
    method UnmarshalXMLAttr(value: seq<byte>) returns (err: Option<Error>)
      modifies this
      ensures ParseHexColor(value).Ok? ==> err.None? && c == ParseHexColor(value).value
      ensures ParseHexColor(value).Err? ==> err == Some(ErrInvalidFormat) && c == old(c)
    {
      var parsed := ParseHexColor(value);
      if parsed.Err? {
        return Some(parsed.error);
      }
      c := parsed.value;
      return None;
    }
  }
}

/** The parts of Go's `bytes`, `strings` and `strconv` packages that the decoder
    relies on, over byte strings. */
module GoText {
  import opened Errors

  type byte = bv8

  const MaxUint32: nat := 0xFFFF_FFFF
  const MaxUint64: nat := 0xFFFF_FFFF_FFFF_FFFF
  /** 1 << 63: the magnitude bound of a Go `int` on a 64-bit platform. */
  const IntCutoff: int := 0x8000_0000_0000_0000

  const Comma: byte := 0x2C
  const Space: byte := 0x20
  const Plus: byte := 0x2B
  const Minus: byte := 0x2D

  /** The bytes of an ASCII string literal. */
  function Ascii(s: string): (r: seq<byte>)
    requires forall k :: 0 <= k < |s| ==> s[k] as int < 128
    ensures |r| == |s|
  {
    if |s| == 0 then [] else [s[0] as byte] + Ascii(s[1..])
  }

  // ---------------------------------------------------------------------------
  // bytes.TrimSpace

  /** ASCII white space as recognised by `bytes.TrimSpace`. */
  predicate IsSpace(b: byte)
  {
    b == 0x09 || b == 0x0A || b == 0x0B || b == 0x0C || b == 0x0D || b == 0x20
  }

  predicate AllSpace(s: seq<byte>)
  {
    forall k :: 0 <= k < |s| ==> IsSpace(s[k])
  }

  function TrimLeft(s: seq<byte>): seq<byte>
  {
    if |s| > 0 && IsSpace(s[0]) then TrimLeft(s[1..]) else s
  }

  function TrimRight(s: seq<byte>): seq<byte>
  {
    if |s| > 0 && IsSpace(s[|s| - 1]) then TrimRight(s[..|s| - 1]) else s
  }

  /** `bytes.TrimSpace`, restricted to ASCII white space. */
  function TrimSpace(s: seq<byte>): seq<byte>
  {
    TrimRight(TrimLeft(s))
  }

  lemma {:induction false} TrimLeftSkipsSpace(w: seq<byte>, s: seq<byte>)
    requires AllSpace(w)
    ensures TrimLeft(w + s) == TrimLeft(s)
    decreases |w|
  {
    if |w| > 0 {
      assert (w + s)[1..] == w[1..] + s;
      TrimLeftSkipsSpace(w[1..], s);
    } else {
      assert w + s == s;
    }
  }

  lemma {:induction false} TrimRightSkipsSpace(s: seq<byte>, w: seq<byte>)
    requires AllSpace(w)
    ensures TrimRight(s + w) == TrimRight(s)
    decreases |w|
  {
    if |w| > 0 {
      assert (s + w)[..|s + w| - 1] == s + w[..|w| - 1];
      TrimRightSkipsSpace(s, w[..|w| - 1]);
    } else {
      assert s + w == s;
    }
  }

  lemma {:induction false} TrimSpaceIgnoresTrailing(s: seq<byte>, w: seq<byte>)
    requires AllSpace(w)
    ensures TrimSpace(s + w) == TrimSpace(s)
    decreases |s|
  {
    if |s| == 0 {
      assert s + w == w + [];
      TrimLeftSkipsSpace(w, []);
    } else if IsSpace(s[0]) {
      assert (s + w)[1..] == s[1..] + w;
      TrimSpaceIgnoresTrailing(s[1..], w);
    } else {
      TrimRightSkipsSpace(s, w);
    }
  }

  /** White space on either side is removed entirely. */
  lemma TrimSpaceIgnoresPadding(w1: seq<byte>, s: seq<byte>, w2: seq<byte>)
    requires AllSpace(w1) && AllSpace(w2)
    ensures TrimSpace(w1 + s + w2) == TrimSpace(s)
  {
    assert w1 + s + w2 == w1 + (s + w2);
    TrimLeftSkipsSpace(w1, s + w2);
    TrimSpaceIgnoresTrailing(s, w2);
  }

  // ---------------------------------------------------------------------------
  // strings.Split and strings.Join with a one-byte separator

  function Count(s: seq<byte>, sep: byte): nat
  {
    if |s| == 0 then 0 else (if s[0] == sep then 1 else 0) + Count(s[1..], sep)
  }

  /** `strings.Split(s, sep)`: the pieces between separators, in order. */
  function Split(s: seq<byte>, sep: byte): (r: seq<seq<byte>>)
    ensures |r| == Count(s, sep) + 1
    ensures forall k :: 0 <= k < |r| ==> sep !in r[k]
  {
    if |s| == 0 then [[]]
    else
      var rest := Split(s[1..], sep);
      if s[0] == sep then [[]] + rest
      else [[s[0]] + rest[0]] + rest[1..]
  }

  /** `strings.Join(pieces, sep)`. */
  function Join(pieces: seq<seq<byte>>, sep: byte): seq<byte>
    requires |pieces| > 0
  {
    if |pieces| == 1 then pieces[0] else pieces[0] + [sep] + Join(pieces[1..], sep)
  }

  lemma {:induction false} SplitWithoutSeparator(a: seq<byte>, sep: byte)
    requires sep !in a
    ensures Split(a, sep) == [a]
    decreases |a|
  {
    if |a| > 0 {
      SplitWithoutSeparator(a[1..], sep);
      assert [a[0]] + a[1..] == a;
    }
  }

  lemma {:induction false} SplitAfterPiece(a: seq<byte>, sep: byte, b: seq<byte>)
    requires sep !in a
    ensures Split(a + [sep] + b, sep) == [a] + Split(b, sep)
    decreases |a|
  {
    if |a| == 0 {
      assert (a + [sep] + b)[1..] == b;
    } else {
      assert (a + [sep] + b)[1..] == a[1..] + [sep] + b;
      SplitAfterPiece(a[1..], sep, b);
      assert [a[0]] + a[1..] == a;
    }
  }

  /** Split undoes Join when no piece holds the separator. */
  lemma {:induction false} SplitJoin(pieces: seq<seq<byte>>, sep: byte)
    requires |pieces| > 0
    requires forall k :: 0 <= k < |pieces| ==> sep !in pieces[k]
    ensures Split(Join(pieces, sep), sep) == pieces
    decreases |pieces|
  {
    if |pieces| == 1 {
      SplitWithoutSeparator(pieces[0], sep);
    } else {
      SplitJoin(pieces[1..], sep);
      SplitAfterPiece(pieces[0], sep, Join(pieces[1..], sep));
      assert [pieces[0]] + pieces[1..] == pieces;
    }
  }

  /** A separator at the end leaves an empty last piece. */
  lemma {:induction false} SplitTrailingSeparator(a: seq<byte>, sep: byte)
    ensures Split(a + [sep], sep)[|Split(a + [sep], sep)| - 1] == []
    decreases |a|
  {
    if |a| == 0 {
      assert (a + [sep])[1..] == [];
    } else {
      assert (a + [sep])[1..] == a[1..] + [sep];
      SplitTrailingSeparator(a[1..], sep);
    }
  }

  // ---------------------------------------------------------------------------
  // Decimal digits

  predicate IsDigit(b: byte) { 0x30 <= b <= 0x39 }

  predicate AllDigits(s: seq<byte>)
  {
    forall k :: 0 <= k < |s| ==> IsDigit(s[k])
  }

  function DigitValue(b: byte): nat
    requires IsDigit(b)
  {
    (b - 0x30) as nat
  }

  function DigitChar(d: nat): (b: byte)
    requires d < 10
    ensures IsDigit(b) && DigitValue(b) == d
  {
    (0x30 + d) as byte
  }

  /** The decimal value of the digits `s` appended to the accumulated value `n`. */
  function ValueFrom(n: nat, s: seq<byte>): nat
    requires AllDigits(s)
    decreases |s|
  {
    if |s| == 0 then n else ValueFrom(n * 10 + DigitValue(s[0]), s[1..])
  }

  /** The decimal rendering of `n` without leading zeros. */
  function FormatDec(n: nat): (r: seq<byte>)
    ensures |r| > 0 && AllDigits(r)
    decreases n
  {
    if n < 10 then [DigitChar(n)] else FormatDec(n / 10) + [DigitChar(n % 10)]
  }

  lemma {:induction false} ValueFromGrows(n: nat, s: seq<byte>)
    requires AllDigits(s)
    ensures ValueFrom(n, s) >= n
    decreases |s|
  {
    if |s| > 0 {
      ValueFromGrows(n * 10 + DigitValue(s[0]), s[1..]);
    }
  }

  lemma {:induction false} ValueFromSnoc(n: nat, s: seq<byte>, b: byte)
    requires AllDigits(s) && IsDigit(b)
    ensures AllDigits(s + [b])
    ensures ValueFrom(n, s + [b]) == ValueFrom(n, s) * 10 + DigitValue(b)
    decreases |s|
  {
    if |s| == 0 {
      assert (s + [b])[1..] == [];
    } else {
      assert (s + [b])[1..] == s[1..] + [b];
      ValueFromSnoc(n * 10 + DigitValue(s[0]), s[1..], b);
    }
  }

  lemma {:induction false} FormatDecValue(n: nat)
    ensures ValueFrom(0, FormatDec(n)) == n
    decreases n
  {
    if n >= 10 {
      FormatDecValue(n / 10);
      ValueFromSnoc(0, FormatDec(n / 10), DigitChar(n % 10));
    }
  }

  // ---------------------------------------------------------------------------
  // strconv.ParseUint(s, 10, bitSize)

  /** The digit loop of `ParseUint` in base 10: digits are consumed from the left,
      and the first non-digit, or the first running value above `max`, stops it. */
  function ScanDigits(n: nat, s: seq<byte>, max: nat): (r: Result<nat>)
    requires n <= max
    ensures r.Ok? ==> r.value <= max
    ensures r.Err? ==> r.error == ErrSyntax || r.error == ErrRange
    decreases |s|
  {
    if |s| == 0 then Ok(n)
    else if !IsDigit(s[0]) then Err(ErrSyntax)
    else
      var n1 := n * 10 + DigitValue(s[0]);
      if n1 > max then Err(ErrRange) else ScanDigits(n1, s[1..], max)
  }

  lemma {:induction false} ScanDigitsValue(n: nat, s: seq<byte>, max: nat)
    requires n <= max && AllDigits(s)
    ensures ScanDigits(n, s, max).Ok? <==> ValueFrom(n, s) <= max
    ensures ScanDigits(n, s, max).Ok? ==> ScanDigits(n, s, max).value == ValueFrom(n, s)
    ensures ScanDigits(n, s, max).Err? ==> ScanDigits(n, s, max).error == ErrRange
    decreases |s|
  {
    if |s| > 0 {
      var n1 := n * 10 + DigitValue(s[0]);
      ValueFromGrows(n1, s[1..]);
      if n1 <= max {
        ScanDigitsValue(n1, s[1..], max);
      }
    }
  }

  lemma {:induction false} ScanStopsAtNonDigit(n: nat, s: seq<byte>, max: nat, k: nat)
    requires n <= max && k < |s| && !IsDigit(s[k])
    ensures ScanDigits(n, s, max).Err?
    decreases k
  {
    if k > 0 && IsDigit(s[0]) {
      var n1 := n * 10 + DigitValue(s[0]);
      if n1 <= max {
        ScanStopsAtNonDigit(n1, s[1..], max, k - 1);
      }
    }
  }

  /** `strconv.ParseUint(s, 10, 32)` followed by the `uint32` conversion. */
  function ParseUint32(s: seq<byte>): Result<bv32>
  {
    if |s| == 0 then Err(ErrSyntax)
    else
      match ScanDigits(0, s, MaxUint32)
      case Err(e) => Err(e)
      case Ok(v) => Ok(v as bv32)
  }

  /** A digit string parses iff its value fits in 32 bits, to exactly that value;
      any other input is rejected, the empty string included. */
  lemma ParseUint32Spec(s: seq<byte>)
    ensures |s| == 0 ==> ParseUint32(s) == Err(ErrSyntax)
    ensures !AllDigits(s) ==> ParseUint32(s).Err?
    ensures |s| > 0 && AllDigits(s) && ValueFrom(0, s) <= MaxUint32 ==>
              ParseUint32(s) == Ok(ValueFrom(0, s) as bv32)
    ensures |s| > 0 && AllDigits(s) && ValueFrom(0, s) > MaxUint32 ==>
              ParseUint32(s) == Err(ErrRange)
  {
    if |s| > 0 && AllDigits(s) {
      ScanDigitsValue(0, s, MaxUint32);
    }
    if !AllDigits(s) && |s| > 0 {
      var k :| 0 <= k < |s| && !IsDigit(s[k]);
      ScanStopsAtNonDigit(0, s, MaxUint32, k);
    }
  }

  lemma ScanFormatDec(n: nat, max: nat)
    requires n <= max
    ensures ScanDigits(0, FormatDec(n), max) == Ok(n)
  {
    FormatDecValue(n);
    ScanDigitsValue(0, FormatDec(n), max);
  }

  /** Parsing the decimal rendering of a 32-bit value gives the value back. */
  lemma ParseFormatDec(v: bv32)
    ensures ParseUint32(FormatDec(v as nat)) == Ok(v)
  {
    var n := v as nat;
    ScanFormatDec(n, MaxUint32);
    assert (n as bv32) == v;
  }

  // ---------------------------------------------------------------------------
  // strconv.Atoi on a 64-bit platform

  /** `strconv.Atoi`: an optional sign, then decimal digits scanned as by
      `ParseUint(s, 10, 64)`; a magnitude of 2^63 or more is out of range for a
      positive number, and above 2^63 for a negative one. */
  function Atoi(s: seq<byte>): (r: Result<int>)
    ensures r.Ok? ==> -IntCutoff <= r.value < IntCutoff
    ensures r.Err? ==> r.error == ErrSyntax || r.error == ErrRange
  {
    if |s| == 0 then Err(ErrSyntax)
    else
      var neg := s[0] == Minus;
      var digits := if s[0] == Minus || s[0] == Plus then s[1..] else s;
      if |digits| == 0 then Err(ErrSyntax)
      else
        match ScanDigits(0, digits, MaxUint64)
        case Err(e) => Err(e)
        case Ok(u) =>
          if !neg && u >= IntCutoff then Err(ErrRange)
          else if neg && u > IntCutoff then Err(ErrRange)
          else Ok(if neg then -(u as int) else u as int)
  }

  /** `strconv.Itoa`. */
  function FormatInt(i: int): seq<byte>
  {
    if i < 0 then [Minus] + FormatDec(-i) else FormatDec(i)
  }

  /** Every 64-bit integer survives formatting and parsing. */
  lemma AtoiFormatInt(i: int)
    requires -IntCutoff <= i < IntCutoff
    ensures Atoi(FormatInt(i)) == Ok(i)
  {
    if i < 0 {
      ScanFormatDec(-i, MaxUint64);
      assert ([Minus] + FormatDec(-i))[1..] == FormatDec(-i);
    } else {
      ScanFormatDec(i, MaxUint64);
    }
  }

  /** A formatted number never contains a separator other than the minus sign. */
  lemma FormatIntHasNoSeparator(i: int, sep: byte)
    requires sep != Minus && !IsDigit(sep)
    ensures sep !in FormatInt(i)
  {
    var d := FormatDec(if i < 0 then -i else i);
    assert AllDigits(d);
    assert sep !in d;
  }
}

/** Global tile ids: the three flip flags in the top bits of a 32-bit GID, and
    the choice of the tileset that owns a bare GID. */
module Gid {
  import opened Errors

  const HorizontalFlipMask: bv32 := 0x8000_0000
  const VerticalFlipMask: bv32 := 0x4000_0000
  const DiagonalFlipMask: bv32 := 0x2000_0000
  const TileFlip: bv32 := HorizontalFlipMask | VerticalFlipMask | DiagonalFlipMask
  /** Declared next to the flip masks; the resolution never applies it. */
  const TileGIDMask: bv32 := 0x0fff_ffff

  /** Bit `k` of a 32-bit value. */
  predicate Bit(g: bv32, k: bv6)
    requires k < 32
  {
    g & (1 << k) != 0
  }

  /** `gid &^ tileFlip`: the GID with its flip flags cleared. */
  function Bare(gid: bv32): bv32
  {
    gid & !TileFlip
  }

  predicate FlippedHorizontally(gid: bv32) { gid & HorizontalFlipMask != 0 }
  predicate FlippedVertically(gid: bv32) { gid & VerticalFlipMask != 0 }
  predicate FlippedDiagonally(gid: bv32) { gid & DiagonalFlipMask != 0 }

  /** The bare GID clears exactly bits 31, 30 and 29 and keeps every other bit. */
  lemma BareClearsFlipBits(gid: bv32, k: bv6)
    requires k < 32
    ensures k >= 29 ==> !Bit(Bare(gid), k)
    ensures k < 29 ==> (Bit(Bare(gid), k) <==> Bit(gid, k))
  {
  }

  /** The three flags are bits 31, 30 and 29 of the raw GID. */
  lemma FlipFlagsAreTopBits(gid: bv32)
    ensures FlippedHorizontally(gid) <==> Bit(gid, 31)
    ensures FlippedVertically(gid) <==> Bit(gid, 30)
    ensures FlippedDiagonally(gid) <==> Bit(gid, 29)
  {
  }

  /** Bit 28 survives: the unused 28-bit mask would have cleared it. */
  lemma Bit28Survives()
    ensures Bare(0x1000_0001) == 0x1000_0001
    ensures 0x1000_0001 & TileGIDMask == 0x0000_0001
  {
  }

  /** A GID built from a bare id below 2^29 and three flags. */
  function WithFlips(bare: bv32, h: bool, v: bool, d: bool): bv32
  {
    bare | (if h then HorizontalFlipMask else 0)
         | (if v then VerticalFlipMask else 0)
         | (if d then DiagonalFlipMask else 0)
  }

  /** Round trip: splitting a GID built from a bare id and three flags gives
      them back. */
  lemma FlipRoundTrip(bare: bv32, h: bool, v: bool, d: bool)
    requires bare & TileFlip == 0
    ensures Bare(WithFlips(bare, h, v, d)) == bare
    ensures FlippedHorizontally(WithFlips(bare, h, v, d)) == h
    ensures FlippedVertically(WithFlips(bare, h, v, d)) == v
    ensures FlippedDiagonally(WithFlips(bare, h, v, d)) == d
  {
  }

  /** Toggling any flip flags leaves the bare GID unchanged. */
  lemma FlipsDoNotChangeBare(gid: bv32, flags: bv32)
    requires flags & !TileFlip == 0
    ensures Bare(gid ^ flags) == Bare(gid)
  {
  }

  /** A GID that is nonzero only through its flags has bare value 0. */
  lemma OnlyFlipsGiveBareZero(gid: bv32)
    requires gid != 0 && gid & !TileFlip == 0
    ensures Bare(gid) == 0
    ensures FlippedHorizontally(gid) || FlippedVertically(gid) || FlippedDiagonally(gid)
  {
  }

  /** A tileset starting at `firstGID` may own `bare` (unsigned comparison). */
  predicate Covers(firstGID: bv32, bare: bv32) { firstGID <= bare }

  /** The scan of `TileGIDToTile` over the first `n` tilesets: the index of the
      last one, in list order, whose first GID is at most `bare`. */
  function SelectBelow(firstGIDs: seq<bv32>, bare: bv32, n: nat): (r: Option<nat>)
    requires n <= |firstGIDs|
    ensures r.Some? ==> r.value < n && Covers(firstGIDs[r.value], bare)
    ensures r.Some? ==> forall j :: r.value < j < n ==> !Covers(firstGIDs[j], bare)
    ensures r.None? <==> forall j :: 0 <= j < n ==> !Covers(firstGIDs[j], bare)
  {
    if n == 0 then None
    else if Covers(firstGIDs[n - 1], bare) then Some(n - 1)
    else SelectBelow(firstGIDs, bare, n - 1)
  }

  function SelectTileset(firstGIDs: seq<bv32>, bare: bv32): Option<nat>
  {
    SelectBelow(firstGIDs, bare, |firstGIDs|)
  }

  /** `gidBare - ts.FirstGID`: the id of a tile within its tileset. */
  function LocalId(bare: bv32, firstGID: bv32): bv32
  {
    bare - firstGID
  }

  /** The selected tileset is the last one that covers `bare`. Tilesets listed
      out of first-GID order are not reordered: a later one with a smaller first
      GID wins. */
  lemma SelectTilesetSpec(firstGIDs: seq<bv32>, bare: bv32, i: nat)
    requires i < |firstGIDs| && Covers(firstGIDs[i], bare)
    requires forall j :: i < j < |firstGIDs| ==> !Covers(firstGIDs[j], bare)
    ensures SelectTileset(firstGIDs, bare) == Some(i)
  {
  }
}

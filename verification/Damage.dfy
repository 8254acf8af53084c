/**
 * Damage regions of an output buffer and the copy of a whole region
 * (sl_host_surface_damage, copy_damaged_rect and the loops of sl_host_surface_commit).
 */
module Damage {
  import opened Machine
  import opened PixelCopy

  /**
   * A pixman region as a list of rectangles. Only the set of covered pixels
   * matters to the compositor, so union is kept as a longer list.
   */
  type Region = seq<Box>

  /** INT_MAX / 10, the side of the damage rectangle of a new buffer. */
  const MAX_SIZE: int := 214748364

  const FullRegion: Region := [Box(0, 0, MAX_SIZE, MAX_SIZE)]

  predicate InRegion(r: Region, x: int, y: int) {
    exists i :: 0 <= i < |r| && InBox(r[i], x, y)
  }

  /** pixman_region32_union_rect: corners wrap at 32 bits, an empty or inverted rectangle adds nothing. */
  function UnionRect(r: Region, x: int, y: int, w: int, h: int): Region {
    var b := Box(x, y, WrapInt32(x + w), WrapInt32(y + h));
    if b.x1 < b.x2 && b.y1 < b.y2 then r + [b] else r
  }

  /**
   * A damage request is recorded in full if and only if it is empty or ends
   * within the int32 range; one that ends beyond it is dropped altogether.
   */
  lemma {:induction false} RequestKeptIff(x: int, y: int, w: int, h: int)
    requires IsInt32(x) && IsInt32(y) && IsInt32(w) && IsInt32(h)
    ensures (forall px: int, py: int :: InBox(Box(x, y, x + w, y + h), px, py) ==> InRegion(UnionRect([], x, y, w, h), px, py))
       <==> w <= 0 || h <= 0 || (x + w <= INT32_MAX && y + h <= INT32_MAX)
  {
    var r := UnionRect([], x, y, w, h);
    if w > 0 && h > 0 {
      assert InBox(Box(x, y, x + w, y + h), x, y);
      if x + w <= INT32_MAX && y + h <= INT32_MAX {
        assert r[0] == Box(x, y, x + w, y + h);
      } else {
        assert r == [] && !InRegion(r, x, y);
      }
    }
  }

  /** Left or top edge of the copy: the scaled coordinate, converted to int32_t and clipped. */
  function LowEdge(a: int, n: nat): int {
    Max(0, ToInt32((a * n) as real))
  }

  /** Right or bottom edge of the copy: half a pixel is added before the conversion. */
  function HighEdge(a: int, n: nat, size: nat): int {
    Min(size, ToInt32((a * n) as real + 0.5))
  }

  /**
   * The rectangle of copy_damaged_rect in buffer pixels, clipped to the contents.
   * The scale is the integer buffer scale (1 for buffer damage). A product of
   * two 32-bit integers is exact in a double up to 2^53, far beyond int32_t.
   */
  function EnclosingBox(r: Box, n: nat, w: nat, h: nat): Box {
    Box(LowEdge(r.x1, n), LowEdge(r.y1, n), HighEdge(r.x2, n, w), HighEdge(r.y2, n, h))
  }

  /** The exact buffer pixels of a surface rectangle under an integer scale. */
  function Scaled(r: Box, n: nat): Box {
    Box(r.x1 * n, r.y1 * n, r.x2 * n, r.y2 * n)
  }

  /** The right and bottom edges survive the conversion to int32_t. */
  predicate EdgesFit(r: Box, n: nat) {
    r.x2 * n <= INT32_MAX && r.y2 * n <= INT32_MAX
  }

  predicate GoodBox(r: Box) {
    r.x1 < r.x2 && r.y1 < r.y2
  }

  lemma {:induction false} LowEdgeExact(a: int, n: nat)
    requires a * n <= INT32_MAX
    ensures LowEdge(a, n) == Max(0, a * n)
  {
  }

  lemma {:induction false} HighEdgeExact(a: int, n: nat, size: nat)
    ensures 0 <= a * n <= INT32_MAX ==> HighEdge(a, n, size) == Min(size, a * n)
    ensures a * n < 0 ==> HighEdge(a, n, size) <= 0
    ensures a * n > INT32_MAX ==> HighEdge(a, n, size) < 0
  {
    var e := a * n;
    if 0 <= e { assert Trunc(e as real + 0.5) == e; } else { assert Trunc(e as real + 0.5) == e + 1; }
  }

  /** Under an integer scale the copied box holds exactly the frame pixels of the scaled rectangle. */
  lemma {:induction false} EnclosingExact(r: Box, n: nat, w: nat, h: nat, x: nat, y: nat)
    requires n >= 1 && GoodBox(r) && EdgesFit(r, n) && x < w && y < h
    ensures InBox(EnclosingBox(r, n, w, h), x, y) <==> InBox(Scaled(r, n), x, y)
  {
    MulMonoInt(r.x1, r.x2, n);
    MulMonoInt(r.y1, r.y2, n);
    LowEdgeExact(r.x1, n);
    LowEdgeExact(r.y1, n);
    HighEdgeExact(r.x2, n, w);
    HighEdgeExact(r.y2, n, h);
  }

  /** A w by h frame has a pixel in the scaled rectangle. */
  predicate Overlaps(b: Box, w: nat, h: nat) {
    Max(0, b.x1) < Min(w, b.x2) && Max(0, b.y1) < Min(h, b.y2)
  }

  /**
   * Exactly when a damage rectangle is copied in full: either its scaled edges
   * fit int32_t or no pixel of the frame lies in it. An edge that does not fit
   * makes copy_damaged_rect copy nothing at all.
   */
  lemma {:induction false} DamageCopiedIff(r: Box, n: nat, w: nat, h: nat)
    requires n >= 1 && GoodBox(r)
    ensures (forall x: nat, y: nat :: x < w && y < h && InBox(Scaled(r, n), x, y) ==>
               InBox(EnclosingBox(r, n, w, h), x, y))
       <==> EdgesFit(r, n) || !Overlaps(Scaled(r, n), w, h)
  {
    if EdgesFit(r, n) {
      forall x: nat, y: nat | x < w && y < h && InBox(Scaled(r, n), x, y)
        ensures InBox(EnclosingBox(r, n, w, h), x, y)
      {
        EnclosingExact(r, n, w, h, x, y);
      }
    } else {
      HighEdgeExact(r.x2, n, w);
      HighEdgeExact(r.y2, n, h);
      if Overlaps(Scaled(r, n), w, h) {
        var x, y := Max(0, r.x1 * n), Max(0, r.y1 * n);
        assert InBox(Scaled(r, n), x, y) && x < w && y < h;
        assert !InBox(EnclosingBox(r, n, w, h), x, y);
      }
    }
  }

  /** How far the damage of a new buffer reaches, in buffer pixels. */
  function Reach(n: nat): nat {
    if MAX_SIZE * n <= INT32_MAX then MAX_SIZE * n else 0
  }

  /** A wholly damaged region covers exactly the pixels within its reach: none at all for a scale above 10. */
  lemma {:induction false} FullRegionCovers(n: nat, w: nat, h: nat, x: nat, y: nat)
    requires n >= 1 && x < w && y < h
    ensures Touched(FullRegion, n, w, h, x, y) <==> x < Reach(n) && y < Reach(n)
  {
    var r := FullRegion[0];
    if EdgesFit(r, n) {
      EnclosingExact(r, n, w, h, x, y);
      if x < Reach(n) && y < Reach(n) {
        assert Touches(r, n, w, h, x, y);
      }
    } else {
      HighEdgeExact(r.x2, n, w);
      HighEdgeExact(r.y2, n, h);
    }
  }

  // ----- copying a region -----

  /** The commit copies pixel (x, y) for this rectangle. */
  predicate Touches(r: Box, n: nat, w: nat, h: nat, x: nat, y: nat) {
    InBox(EnclosingBox(r, n, w, h), x, y)
  }

  /** Pixel (x, y) lies in a rectangle that the commit will copy. */
  predicate Touched(region: Region, n: nat, w: nat, h: nat, x: nat, y: nat) {
    exists i :: 0 <= i < |region| && Touches(region[i], n, w, h, x, y)
  }

  function CopyRect(dst: seq<byte>, dl: Layout, src: seq<byte>, sl: Layout, w: nat, h: nat, r: Box, n: nat): (m: seq<byte>)
    requires Fits(dl, w, h, |dst|) && Inside(sl, w, h, |src|) && dl.bpp == sl.bpp
    ensures |m| == |dst|
  {
    var b := EnclosingBox(r, n, w, h);
    if GoodBox(b) then CopyBox(dst, dl, src, sl, w, h, b) else dst
  }

  function CopyRegion(dst: seq<byte>, dl: Layout, src: seq<byte>, sl: Layout, w: nat, h: nat, region: Region, n: nat): (m: seq<byte>)
    requires Fits(dl, w, h, |dst|) && Inside(sl, w, h, |src|) && dl.bpp == sl.bpp
    ensures |m| == |dst|
    decreases |region|
  {
    if region == [] then dst
    else
      var last := |region| - 1;
      CopyRect(CopyRegion(dst, dl, src, sl, w, h, region[..last], n), dl, src, sl, w, h, region[last], n)
  }

  /** After copying a region its pixels are the source's and all others are unchanged. */
  lemma {:induction false} CopyRegionPixel(dst: seq<byte>, dl: Layout, src: seq<byte>, sl: Layout, w: nat, h: nat,
                                           region: Region, n: nat, x: nat, y: nat)
    requires Fits(dl, w, h, |dst|) && Inside(sl, w, h, |src|) && dl.bpp == sl.bpp && x < w && y < h
    ensures Pixel(CopyRegion(dst, dl, src, sl, w, h, region, n), dl, w, h, x, y)
         == if Touched(region, n, w, h, x, y) then Pixel(src, sl, w, h, x, y) else Pixel(dst, dl, w, h, x, y)
    decreases |region|
  {
    if region != [] {
      var last := |region| - 1;
      var mid := CopyRegion(dst, dl, src, sl, w, h, region[..last], n);
      var b := EnclosingBox(region[last], n, w, h);
      CopyRegionPixel(dst, dl, src, sl, w, h, region[..last], n, x, y);
      if GoodBox(b) {
        CopyBoxPixel(mid, dl, src, sl, w, h, b, x, y);
      }
      TouchedLast(region, n, w, h, x, y);
    }
  }

  predicate SomeBox(region: Region, p: Box -> bool) {
    exists i :: 0 <= i < |region| && p(region[i])
  }

  lemma {:induction false} SomeOrLast(region: Region, p: Box -> bool)
    requires region != []
    ensures SomeBox(region, p) <==> SomeBox(region[..|region| - 1], p) || p(region[|region| - 1])
  {
    var front := region[..|region| - 1];
    if i :| 0 <= i < |region| && p(region[i]) && i < |front| {
      assert p(front[i]);
    }
    if i :| 0 <= i < |front| && p(front[i]) {
      assert p(region[i]);
    }
  }

  lemma {:induction false} TouchedLast(region: Region, n: nat, w: nat, h: nat, x: nat, y: nat)
    requires region != []
    ensures Touched(region, n, w, h, x, y)
       <==> Touched(region[..|region| - 1], n, w, h, x, y)
            || Touches(region[|region| - 1], n, w, h, x, y)
  {
    SomeOrLast(region, r => Touches(r, n, w, h, x, y));
  }
}

/**
 * Plane sizes of the shm formats and the strided rectangle copy
 * (sommelier-shm.cc, copy_damaged_rect in sommelier-compositor.cc).
 */
module ShmFormats {
  import opened Machine

  datatype ShmFormat = NV12 | RGB565 | ARGB8888 | ABGR8888 | XRGB8888 | XBGR8888

  function BytesPerPixel(f: ShmFormat): nat {
    match f
    case NV12 => 1
    case RGB565 => 2
    case _ => 4
  }

  function NumPlanes(f: ShmFormat): nat {
    if f.NV12? then 2 else 1
  }

  function YSubsampling(f: ShmFormat, plane: nat): nat
    requires plane < 2
  {
    if f.NV12? && plane == 1 then 2 else 1
  }

  function PlaneOffset(f: ShmFormat, height: nat, stride: nat, plane: nat): nat
    requires plane < 2
  {
    if f.NV12? && plane == 1 then height * stride else 0
  }

  function PlaneSize(f: ShmFormat, height: nat, stride: nat, plane: nat): nat
    requires plane < 2
  {
    height / YSubsampling(f, plane) * stride
  }

  /** The end of plane 1, or of plane 0 where it reaches further. */
  function ShmSize(f: ShmFormat, height: nat, stride: nat): nat {
    var first := PlaneOffset(f, height, stride, 0) + PlaneSize(f, height, stride, 0);
    if NumPlanes(f) == 1 then first
    else Max(first, PlaneOffset(f, height, stride, 1) + PlaneSize(f, height, stride, 1))
  }

  /**
   * The mapping size: large enough for every plane, and no larger than the last
   * byte of one. The planes follow each other, the first with all its rows.
   */
  method SizeForShmFormat(f: ShmFormat, height: nat, stride: nat) returns (total: nat)
    ensures total == ShmSize(f, height, stride)
    ensures forall p :: 0 <= p < NumPlanes(f) ==>
              PlaneOffset(f, height, stride, p) + PlaneSize(f, height, stride, p) <= total
    ensures exists p :: 0 <= p < NumPlanes(f) &&
              total == PlaneOffset(f, height, stride, p) + PlaneSize(f, height, stride, p)
    ensures PlaneSize(f, height, stride, 0) == height * stride
    ensures NumPlanes(f) == 2 ==> PlaneOffset(f, height, stride, 1) == PlaneSize(f, height, stride, 0)
    ensures total == if f.NV12? then height * stride + height / 2 * stride else height * stride
  {
    total := 0;
    for i := 0 to NumPlanes(f)
      invariant forall p :: 0 <= p < i ==>
                  PlaneOffset(f, height, stride, p) + PlaneSize(f, height, stride, p) <= total
      invariant i == 0 ==> total == 0
      invariant i > 0 ==>
                  exists p :: 0 <= p < i &&
                              total == PlaneOffset(f, height, stride, p) + PlaneSize(f, height, stride, p)
    {
      var size := PlaneSize(f, height, stride, i);
      var offset := PlaneOffset(f, height, stride, i);
      total := Max(total, size + offset);
    }
  }
}

module PixelCopy {
  import opened Machine
  import opened ShmFormats

  /** Half-open pixel rectangle, as pixman_box32. */
  datatype Box = Box(x1: int, y1: int, x2: int, y2: int)

  /** Where plane 0 of an image lies in its mapping. */
  datatype Layout = Layout(offset: nat, stride: nat, bpp: nat)

  predicate InBox(b: Box, x: int, y: int) {
    b.x1 <= x < b.x2 && b.y1 <= y < b.y2
  }

  /** `b` lies inside a w by h image. */
  predicate Within(b: Box, w: nat, h: nat) {
    0 <= b.x1 < b.x2 <= w && 0 <= b.y1 < b.y2 <= h
  }

  /** Every pixel of a w by h image with layout `l` lies in a mapping of `size` bytes. */
  predicate Inside(l: Layout, w: nat, h: nat, size: nat) {
    l.bpp > 0 && (w > 0 && h > 0 ==> l.offset + (h - 1) * l.stride + w * l.bpp <= size)
  }

  /** Besides, its rows do not overlap, as in a buffer of the channel's. */
  predicate Fits(l: Layout, w: nat, h: nat, size: nat) {
    Inside(l, w, h, size) && w * l.bpp <= l.stride
  }

  function PixelStart(l: Layout, x: nat, y: nat): nat {
    l.offset + y * l.stride + x * l.bpp
  }

  lemma {:induction false} MulMono(a: nat, b: nat, c: nat)
    requires a <= b
    ensures a * c <= b * c
  {
  }

  lemma {:induction false} PixelInside(l: Layout, w: nat, h: nat, size: nat, x: nat, y: nat)
    requires Inside(l, w, h, size) && x < w && y < h
    ensures PixelStart(l, x, y) + l.bpp <= size
  {
    MulMono(x + 1, w, l.bpp);
    assert (x + 1) * l.bpp == x * l.bpp + l.bpp;
    MulMono(y, h - 1, l.stride);
  }

  lemma {:induction false} PixelInRow(l: Layout, w: nat, x: nat)
    requires w * l.bpp <= l.stride && x < w
    ensures x * l.bpp + l.bpp <= l.stride
  {
    MulMono(x + 1, w, l.bpp);
    assert (x + 1) * l.bpp == x * l.bpp + l.bpp;
  }

  /** The bytes of pixel (x, y). */
  function Pixel(mem: seq<byte>, l: Layout, w: nat, h: nat, x: nat, y: nat): seq<byte>
    requires Inside(l, w, h, |mem|) && x < w && y < h
  {
    PixelInside(l, w, h, |mem|, x, y);
    mem[PixelStart(l, x, y)..PixelStart(l, x, y) + l.bpp]
  }

  // ----- the 2-D specification: which bytes a box covers -----

  /** Row of byte `i`. */
  function Row(l: Layout, i: int): int
    requires l.stride > 0
  {
    (i - l.offset) / l.stride
  }

  /** Byte column of byte `i` inside its row. */
  function Col(l: Layout, i: int): int
    requires l.stride > 0
  {
    (i - l.offset) % l.stride
  }

  predicate InBoxByte(l: Layout, b: Box, i: int) {
    && l.stride > 0
    && i >= l.offset
    && b.y1 <= Row(l, i) < b.y2
    && b.x1 * l.bpp <= Col(l, i) < b.x2 * l.bpp
  }

  lemma {:induction false} DivModUnique(i: int, s: int, q: int, r: int)
    requires s > 0 && 0 <= r < s && i == q * s + r
    ensures i / s == q && i % s == r
  {
    if i / s < q {
      MulMonoInt(i / s + 1, q, s);
    } else if i / s > q {
      MulMonoInt(q + 1, i / s, s);
    }
  }

  lemma {:induction false} MulMonoInt(a: int, b: int, c: int)
    requires a <= b && 0 <= c
    ensures a * c <= b * c
  {
  }

  lemma {:induction false} RowCol(l: Layout, i: int, y: int, c: int)
    requires l.stride > 0 && 0 <= c < l.stride && i == l.offset + y * l.stride + c
    ensures Row(l, i) == y && Col(l, i) == c
  {
    DivModUnique(i - l.offset, l.stride, y, c);
  }

  lemma {:induction false} RowColBack(l: Layout, i: int)
    requires l.stride > 0
    ensures i == l.offset + Row(l, i) * l.stride + Col(l, i)
    ensures 0 <= Col(l, i) < l.stride
  {
  }

  /** A byte of a box inside the image lies inside the mapping. */
  lemma {:induction false} BoxByteInside(l: Layout, b: Box, w: nat, h: nat, size: nat, y: int, c: int)
    requires Inside(l, w, h, size) && Within(b, w, h)
    requires b.y1 <= y < b.y2 && b.x1 * l.bpp <= c < b.x2 * l.bpp
    ensures 0 <= c < w * l.bpp
    ensures l.offset <= l.offset + y * l.stride + c < size
  {
    MulMono(b.x2, w, l.bpp);
    MulMono(0, b.x1, l.bpp);
    MulMono(y, h - 1, l.stride);
    MulMono(0, y, l.stride);
  }

  /**
   * The 2-D rectangle copy: byte `i` comes from the same place of the source
   * image when it belongs to a pixel of the box and is unchanged otherwise.
   */
  function CopyBox(dst: seq<byte>, dl: Layout, src: seq<byte>, sl: Layout, w: nat, h: nat, b: Box): (r: seq<byte>)
    requires Fits(dl, w, h, |dst|) && Inside(sl, w, h, |src|) && dl.bpp == sl.bpp
    requires Within(b, w, h)
    ensures |r| == |dst|
  {
    seq(|dst|, i requires 0 <= i < |dst| =>
      if InBoxByte(dl, b, i) then
        BoxByteInside(sl, b, w, h, |src|, Row(dl, i), Col(dl, i));
        src[sl.offset + Row(dl, i) * sl.stride + Col(dl, i)]
      else dst[i])
  }

  lemma {:induction false} PixelByte(l: Layout, w: nat, h: nat, size: nat, x: nat, y: nat, k: nat)
    requires Fits(l, w, h, size) && x < w && y < h && k < l.bpp
    ensures l.stride > 0
    ensures Row(l, PixelStart(l, x, y) + k) == y
    ensures Col(l, PixelStart(l, x, y) + k) == x * l.bpp + k
  {
    PixelInRow(l, w, x);
    MulMono(0, x, l.bpp);
    RowCol(l, PixelStart(l, x, y) + k, y, x * l.bpp + k);
  }

  /** Byte column x*bpp+k lies in the byte columns of [x1, x2) exactly when x does. */
  lemma {:induction false} ColumnOfPixel(x1: int, x2: int, x: nat, k: nat, bpp: nat)
    requires k < bpp
    ensures x1 * bpp <= x * bpp + k < x2 * bpp <==> x1 <= x < x2
  {
    if x1 <= x { MulMonoInt(x1, x, bpp); } else { MulMonoInt(x + 1, x1, bpp); }
    if x < x2 { MulMonoInt(x + 1, x2, bpp); } else { MulMonoInt(x2, x, bpp); }
    assert (x + 1) * bpp == x * bpp + bpp;
  }

  lemma {:induction false} PixelByteInBox(l: Layout, w: nat, h: nat, size: nat, b: Box, x: nat, y: nat, k: nat)
    requires Fits(l, w, h, size) && x < w && y < h && k < l.bpp
    ensures InBoxByte(l, b, PixelStart(l, x, y) + k) <==> InBox(b, x, y)
  {
    PixelByte(l, w, h, size, x, y, k);
    ColumnOfPixel(b.x1, b.x2, x, k, l.bpp);
    MulMono(0, x, l.bpp);
    MulMono(0, y, l.stride);
  }

  /** Byte k of pixel (x, y). */
  function PixelByteAt(mem: seq<byte>, l: Layout, w: nat, h: nat, x: nat, y: nat, k: nat): byte
    requires Inside(l, w, h, |mem|) && x < w && y < h && k < l.bpp
  {
    PixelInside(l, w, h, |mem|, x, y);
    mem[PixelStart(l, x, y) + k]
  }

  lemma {:induction false} SamePixel(a: seq<byte>, la: Layout, b: seq<byte>, lb: Layout, w: nat, h: nat, x: nat, y: nat)
    requires Inside(la, w, h, |a|) && Inside(lb, w, h, |b|) && la.bpp == lb.bpp && x < w && y < h
    requires forall k: nat :: k < la.bpp ==> PixelByteAt(a, la, w, h, x, y, k) == PixelByteAt(b, lb, w, h, x, y, k)
    ensures Pixel(a, la, w, h, x, y) == Pixel(b, lb, w, h, x, y)
  {
    PixelInside(la, w, h, |a|, x, y);
    PixelInside(lb, w, h, |b|, x, y);
    var p, q := Pixel(a, la, w, h, x, y), Pixel(b, lb, w, h, x, y);
    forall k: nat | k < |p|
      ensures p[k] == q[k]
    {
      assert p[k] == PixelByteAt(a, la, w, h, x, y, k);
      assert q[k] == PixelByteAt(b, lb, w, h, x, y, k);
    }
  }

  lemma {:induction false} CopyBoxByte(dst: seq<byte>, dl: Layout, src: seq<byte>, sl: Layout, w: nat, h: nat, b: Box,
                    x: nat, y: nat, k: nat)
    requires Fits(dl, w, h, |dst|) && Inside(sl, w, h, |src|) && dl.bpp == sl.bpp
    requires Within(b, w, h) && x < w && y < h && k < dl.bpp
    ensures PixelByteAt(CopyBox(dst, dl, src, sl, w, h, b), dl, w, h, x, y, k)
         == if InBox(b, x, y) then PixelByteAt(src, sl, w, h, x, y, k) else PixelByteAt(dst, dl, w, h, x, y, k)
  {
    PixelInside(dl, w, h, |dst|, x, y);
    PixelInside(sl, w, h, |src|, x, y);
    PixelByteInBox(dl, w, h, |dst|, b, x, y, k);
    PixelByte(dl, w, h, |dst|, x, y, k);
  }

  /** What the copy means for one pixel: taken from the source inside the box, kept outside. */
  lemma {:induction false} CopyBoxPixel(dst: seq<byte>, dl: Layout, src: seq<byte>, sl: Layout, w: nat, h: nat, b: Box, x: nat, y: nat)
    requires Fits(dl, w, h, |dst|) && Inside(sl, w, h, |src|) && dl.bpp == sl.bpp
    requires Within(b, w, h) && x < w && y < h
    ensures Pixel(CopyBox(dst, dl, src, sl, w, h, b), dl, w, h, x, y)
         == if InBox(b, x, y) then Pixel(src, sl, w, h, x, y) else Pixel(dst, dl, w, h, x, y)
  {
    var r := CopyBox(dst, dl, src, sl, w, h, b);
    forall k: nat | k < dl.bpp
      ensures PixelByteAt(r, dl, w, h, x, y, k)
           == if InBox(b, x, y) then PixelByteAt(src, sl, w, h, x, y, k) else PixelByteAt(dst, dl, w, h, x, y, k)
    {
      CopyBoxByte(dst, dl, src, sl, w, h, b, x, y, k);
    }
    if InBox(b, x, y) {
      SamePixel(r, dl, src, sl, w, h, x, y);
    } else {
      SamePixel(r, dl, dst, dl, w, h, x, y);
    }
  }

  lemma {:induction false} PixelOfBoxByte(l: Layout, b: Box, i: nat) returns (x: int, y: int)
    requires l.bpp > 0 && InBoxByte(l, b, i)
    ensures 0 <= x && 0 <= y && InBox(b, x, y)
    ensures PixelStart(l, x, y) <= i < PixelStart(l, x, y) + l.bpp
  {
    RowColBack(l, i);
    var c := Col(l, i);
    x, y := c / l.bpp, Row(l, i);
    assert c == x * l.bpp + c % l.bpp;
    ColumnOfPixel(b.x1, b.x2, x, c % l.bpp, l.bpp);
  }

  /** Bytes outside every pixel of the box are untouched: row padding survives. */
  lemma {:induction false} CopyBoxFrame(dst: seq<byte>, dl: Layout, src: seq<byte>, sl: Layout, w: nat, h: nat, b: Box, i: nat)
    requires Fits(dl, w, h, |dst|) && Inside(sl, w, h, |src|) && dl.bpp == sl.bpp
    requires Within(b, w, h) && i < |dst|
    requires forall x: nat, y: nat :: InBox(b, x, y) ==>
               !(PixelStart(dl, x, y) <= i < PixelStart(dl, x, y) + dl.bpp)
    ensures CopyBox(dst, dl, src, sl, w, h, b)[i] == dst[i]
  {
    if InBoxByte(dl, b, i) {
      var x, y := PixelOfBoxByte(dl, b, i);
    }
  }

  // ----- the code: memcpy row by row -----

  method Memcpy(dst: array<byte>, d: nat, src: array<byte>, s: nat, n: nat)
    requires dst != src && d + n <= dst.Length && s + n <= src.Length
    modifies dst
    ensures forall i :: 0 <= i < dst.Length ==>
              dst[i] == if d <= i < d + n then src[s + (i - d)] else old(dst[i])
  {
    for k := 0 to n
      invariant forall i :: 0 <= i < dst.Length ==>
                  dst[i] == if d <= i < d + k then src[s + (i - d)] else old(dst[i])
    {
      dst[d + k] := src[s + k];
    }
  }

  /** The bytes [x1*bpp, x2*bpp) of row y are exactly the box bytes whose row is y. */
  lemma {:induction false} RowSpan(l: Layout, b: Box, w: nat, h: nat, size: nat, y: int, i: int)
    requires Fits(l, w, h, size) && Within(b, w, h) && b.y1 <= y < b.y2
    ensures var d := l.offset + y * l.stride + b.x1 * l.bpp;
            (d <= i < d + (b.x2 - b.x1) * l.bpp <==> InBoxByte(l, b, i) && Row(l, i) == y)
            && (d <= i < d + (b.x2 - b.x1) * l.bpp ==> Col(l, i) == i - l.offset - y * l.stride)
  {
    var d := l.offset + y * l.stride + b.x1 * l.bpp;
    assert (b.x2 - b.x1) * l.bpp == b.x2 * l.bpp - b.x1 * l.bpp;
    BoxByteInside(l, b, w, h, size, y, b.x1 * l.bpp) by {
      MulMono(b.x1 + 1, b.x2, l.bpp);
    }
    if d <= i < d + (b.x2 - b.x1) * l.bpp {
      BoxByteInside(l, b, w, h, size, y, i - l.offset - y * l.stride);
      RowCol(l, i, y, i - l.offset - y * l.stride);
    }
    if InBoxByte(l, b, i) && Row(l, i) == y {
      RowColBack(l, i);
    }
  }

  /** The rows y1..y of the box are done. */
  ghost predicate RowsDone(dst: seq<byte>, dst0: seq<byte>, dl: Layout, src: seq<byte>, sl: Layout,
                           w: nat, h: nat, b: Box, y: int)
    requires Fits(dl, w, h, |dst0|) && Inside(sl, w, h, |src|) && dl.bpp == sl.bpp
    requires Within(b, w, h)
  {
    && |dst| == |dst0|
    && var full := CopyBox(dst0, dl, src, sl, w, h, b);
       forall i :: 0 <= i < |dst0| ==>
         dst[i] == if InBoxByte(dl, b, i) && Row(dl, i) < y then full[i] else dst0[i]
  }

  /** First byte of row y of the box. */
  function RowStart(l: Layout, b: Box, y: int): int {
    l.offset + y * l.stride + b.x1 * l.bpp
  }

  lemma {:induction false} NextRowStart(l: Layout, b: Box, y: int)
    ensures RowStart(l, b, y + 1) == RowStart(l, b, y) + l.stride
  {
    assert (y + 1) * l.stride == y * l.stride + l.stride;
  }

  lemma {:induction false} NoRowsDone(dst: seq<byte>, dl: Layout, src: seq<byte>, sl: Layout, w: nat, h: nat, b: Box)
    requires Fits(dl, w, h, |dst|) && Inside(sl, w, h, |src|) && dl.bpp == sl.bpp
    requires Within(b, w, h)
    ensures RowsDone(dst, dst, dl, src, sl, w, h, b, b.y1)
  {
  }

  lemma {:induction false} AllRowsDone(dst: seq<byte>, dst0: seq<byte>, dl: Layout, src: seq<byte>, sl: Layout, w: nat, h: nat, b: Box)
    requires Fits(dl, w, h, |dst0|) && Inside(sl, w, h, |src|) && dl.bpp == sl.bpp
    requires Within(b, w, h)
    requires RowsDone(dst, dst0, dl, src, sl, w, h, b, b.y2)
    ensures dst == CopyBox(dst0, dl, src, sl, w, h, b)
  {
  }

  /** One memcpy of the row loop. */
  method CopyRow(dst: array<byte>, dl: Layout, src: array<byte>, sl: Layout, w: nat, h: nat, b: Box,
                 d: nat, s: nat, bytes: nat, ghost dst0: seq<byte>, ghost y: int)
    requires dst != src && |dst0| == dst.Length
    requires Fits(dl, w, h, dst.Length) && Inside(sl, w, h, src.Length) && dl.bpp == sl.bpp
    requires Within(b, w, h) && b.y1 <= y < b.y2
    requires d == RowStart(dl, b, y) && s == RowStart(sl, b, y) && bytes == (b.x2 - b.x1) * dl.bpp
    requires RowsDone(dst[..], dst0, dl, src[..], sl, w, h, b, y)
    modifies dst
    ensures RowsDone(dst[..], dst0, dl, src[..], sl, w, h, b, y + 1)
  {
    RowInBounds(dl, b, w, h, dst.Length, y);
    RowInBounds(sl, b, w, h, src.Length, y);
    ghost var before := dst[..];
    Memcpy(dst, d, src, s, bytes);
    OneRow(before, dst[..], dst0, dl, src[..], sl, w, h, b, y);
  }

  /** copy_damaged_rect's inner loops for one clipped rectangle of a single-plane image. */
  method CopyRows(dst: array<byte>, dl: Layout, src: array<byte>, sl: Layout, w: nat, h: nat, b: Box)
    requires dst != src
    requires Fits(dl, w, h, dst.Length) && Inside(sl, w, h, src.Length) && dl.bpp == sl.bpp
    requires Within(b, w, h)
    modifies dst
    ensures dst[..] == CopyBox(old(dst[..]), dl, src[..], sl, w, h, b)
  {
    ghost var dst0, src0 := dst[..], src[..];
    var s := sl.offset + b.y1 * sl.stride + b.x1 * sl.bpp;
    var d := dl.offset + b.y1 * dl.stride + b.x1 * dl.bpp;
    var bytes := (b.x2 - b.x1) * dl.bpp;
    var height := b.y2 - b.y1;
    NoRowsDone(dst0, dl, src0, sl, w, h, b);
    while height > 0
      invariant 0 <= height <= b.y2 - b.y1
      invariant s == RowStart(sl, b, b.y2 - height)
      invariant d == RowStart(dl, b, b.y2 - height)
      invariant src[..] == src0
      invariant RowsDone(dst[..], dst0, dl, src0, sl, w, h, b, b.y2 - height)
    {
      ghost var y := b.y2 - height;
      RowInBounds(dl, b, w, h, dst.Length, y);
      RowInBounds(sl, b, w, h, src.Length, y);
      CopyRow(dst, dl, src, sl, w, h, b, d, s, bytes, dst0, y);
      NextRowStart(dl, b, y);
      NextRowStart(sl, b, y);
      d := d + dl.stride;
      s := s + sl.stride;
      height := height - 1;
    }
    AllRowsDone(dst[..], dst0, dl, src0, sl, w, h, b);
  }

  lemma {:induction false} RowInBounds(l: Layout, b: Box, w: nat, h: nat, size: nat, y: int)
    requires Inside(l, w, h, size) && Within(b, w, h) && b.y1 <= y < b.y2
    ensures 0 <= (b.x2 - b.x1) * l.bpp
    ensures l.offset <= RowStart(l, b, y)
    ensures RowStart(l, b, y) + (b.x2 - b.x1) * l.bpp <= size
  {
    assert (b.x2 - b.x1) * l.bpp == b.x2 * l.bpp - b.x1 * l.bpp;
    MulMono(b.x1, b.x2, l.bpp);
    MulMono(b.x2, w, l.bpp);
    MulMono(0, b.x1, l.bpp);
    MulMono(0, y, l.stride);
    MulMono(y, h - 1, l.stride);
  }

  // ----- the size computed for the mapping -----

  /** Every row of every clipped rectangle ends inside the mapping. */
  ghost predicate RowsInside(l: Layout, w: nat, h: nat, size: nat) {
    forall b: Box, y: int :: Within(b, w, h) && b.y1 <= y < b.y2 ==> RowStart(l, b, y) + (b.x2 - b.x1) * l.bpp <= size
  }

  /** The copy stays inside the mapping, whatever the rectangle, if and only if every pixel is inside. */
  lemma {:induction false} RowsInsideIff(l: Layout, w: nat, h: nat, size: nat)
    requires w > 0 && h > 0 && l.bpp > 0
    ensures RowsInside(l, w, h, size) <==> Inside(l, w, h, size)
  {
    if Inside(l, w, h, size) {
      forall b: Box, y: int | Within(b, w, h) && b.y1 <= y < b.y2
        ensures RowStart(l, b, y) + (b.x2 - b.x1) * l.bpp <= size
      {
        RowInBounds(l, b, w, h, size, y);
      }
    } else {
      var all := Box(0, 0, w, h);
      assert Within(all, w, h) && RowStart(l, all, h - 1) + (all.x2 - all.x1) * l.bpp > size;
    }
  }

  /** The client's image in the mapping made for its wl_buffer. */
  function ClientLayout(f: ShmFormat, offset: nat, stride: nat): Layout {
    Layout(offset, stride, BytesPerPixel(f))
  }

  /** sl_mmap_create maps the offset and the size computed for the format. */
  function MappedSize(f: ShmFormat, offset: nat, height: nat, stride: nat): nat {
    offset + ShmSize(f, height, stride)
  }

  /**
   * The size computed for a single-plane buffer holds every row the copy reads
   * if and only if the stride, which nothing checks, is at least a row of pixels.
   */
  lemma {:induction false} MappingHoldsCopyIff(f: ShmFormat, offset: nat, w: nat, h: nat, stride: nat)
    requires NumPlanes(f) == 1 && w > 0 && h > 0
    ensures RowsInside(ClientLayout(f, offset, stride), w, h, MappedSize(f, offset, h, stride))
       <==> w * BytesPerPixel(f) <= stride
  {
    RowsInsideIff(ClientLayout(f, offset, stride), w, h, MappedSize(f, offset, h, stride));
    assert h * stride == (h - 1) * stride + stride;
  }

  /**
   * In numbers: a row of the first plane is a byte a pixel in NV12, two in
   * RGB565, and four in each of the formats with eight bits a channel.
   */
  lemma {:induction false} StrideNeeded(f: ShmFormat, offset: nat, w: nat, h: nat, stride: nat)
    requires w > 0 && h > 0
    ensures RowsInside(ClientLayout(f, offset, stride), w, h, offset + PlaneSize(f, h, stride, 0))
       <==> stride >= if f.NV12? then w else if f.RGB565? then 2 * w else 4 * w
  {
    RowsInsideIff(ClientLayout(f, offset, stride), w, h, offset + PlaneSize(f, h, stride, 0));
    assert h * stride == (h - 1) * stride + stride;
  }

  lemma {:induction false} LastRowEnd(f: ShmFormat, offset: nat, w: nat, h: nat, stride: nat)
    requires NumPlanes(f) == 1 && h > 0
    ensures RowStart(ClientLayout(f, offset, stride), Box(0, 0, w, h), h - 1) + stride == MappedSize(f, offset, h, stride)
  {
    assert h * stride == (h - 1) * stride + stride;
  }

  /**
   * Without dmabuf an output buffer takes over the client's stride and size. It
   * fits whenever the rows read from the client lie inside the client's mapping.
   */
  lemma {:induction false} SharedStrideFits(f: ShmFormat, offset: nat, w: nat, h: nat, stride: nat, hostSize: nat)
    requires NumPlanes(f) == 1 && w > 0 && h > 0 && hostSize >= ShmSize(f, h, stride)
    requires RowsInside(ClientLayout(f, offset, stride), w, h, MappedSize(f, offset, h, stride))
    ensures Fits(ClientLayout(f, 0, stride), w, h, hostSize)
  {
    MappingHoldsCopyIff(f, offset, w, h, stride);
    assert h * stride == (h - 1) * stride + stride;
  }

  /** A buffer 2 pixels wide with a stride of 4 bytes: the last row of the copy ends 4 bytes behind the mapping. */
  lemma {:induction false} ShortStrideExample(offset: nat, h: nat)
    requires h > 0
    ensures var l := ClientLayout(ARGB8888, offset, 4);
            RowStart(l, Box(0, 0, 2, h), h - 1) + 2 * l.bpp == MappedSize(ARGB8888, offset, h, 4) + 4
  {
    LastRowEnd(ARGB8888, offset, 2, h, 4);
  }

  /** One memcpy advances the finished rows by one. */
  lemma {:induction false} OneRow(before: seq<byte>, after: seq<byte>, dst0: seq<byte>, dl: Layout, src: seq<byte>, sl: Layout,
               w: nat, h: nat, b: Box, y: int)
    requires Fits(dl, w, h, |dst0|) && Inside(sl, w, h, |src|) && dl.bpp == sl.bpp
    requires Within(b, w, h) && b.y1 <= y < b.y2
    requires RowsDone(before, dst0, dl, src, sl, w, h, b, y)
    requires |after| == |before|
    requires var d := dl.offset + y * dl.stride + b.x1 * dl.bpp;
             var s := sl.offset + y * sl.stride + b.x1 * sl.bpp;
             var n := (b.x2 - b.x1) * dl.bpp;
             0 <= s && s + n <= |src| && 0 <= d &&
             forall i :: 0 <= i < |after| ==>
               after[i] == if d <= i < d + n then src[s + (i - d)] else before[i]
    ensures RowsDone(after, dst0, dl, src, sl, w, h, b, y + 1)
  {
    var full := CopyBox(dst0, dl, src, sl, w, h, b);
    forall i | 0 <= i < |dst0|
      ensures after[i] == if InBoxByte(dl, b, i) && Row(dl, i) < y + 1 then full[i] else dst0[i]
    {
      RowSpan(dl, b, w, h, |dst0|, y, i);
    }
  }
}

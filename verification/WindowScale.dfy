/**
 * Direct-scale coordinate transforms and the per-window scale
 * (sommelier-transform.cc). Doubles are reals; a multiplication or division
 * may be off by a relative error of 2^-53.
 */
module WindowScale {
  import opened Machine

  /** 2^-53, the rounding error of one double operation. */
  const U: real := 1.0 / 9007199254740992.0

  /** The machine's multiplication and division. */
  datatype Arith = Arith(mul: (real, real) -> real, div: (real, real) -> real)

  predicate Near(v: real, exact: real) {
    (1.0 - U) * exact <= v <= (1.0 + U) * exact
  }

  predicate MulOk(a: Arith, x: real, y: real) {
    x >= 0.0 && y >= 0.0 ==> Near(a.mul(x, y), x * y)
  }

  predicate DivOk(a: Arith, x: real, y: real) {
    x >= 0.0 && y > 0.0 ==> Near(a.div(x, y), x / y)
  }

  /** Operations on non-negative operands are within relative error U. */
  ghost predicate Accurate(a: Arith) {
    (forall x: real, y: real :: MulOk(a, x, y)) && (forall x: real, y: real :: DivOk(a, x, y))
  }

  datatype Pair = Pair(x: real, y: real)
  datatype Size = Size(w: int, h: int)

  /** The fields of sl_host_surface that the transforms use. */
  datatype Surface = Surface(
    hasOwnScale: bool, scale: Pair, roundX: bool, roundY: bool, cached: Size, output: Option<Pair>)

  datatype Context = Context(arith: Arith, useDirectScale: bool, xdgScale: Pair, scale: real)

  /** sl_transform_get_scale_factors. */
  function ScaleFactors(ctx: Context, s: Surface): Pair {
    if ctx.useDirectScale && s.hasOwnScale then s.scale
    else if s.output.Some? then s.output.value
    else ctx.xdgScale
  }

  /** One axis of sl_transform_direct_to_host. */
  function AxisToHost(a: Arith, v: int, scale: real): int {
    ToInt32(a.div(v as real, scale))
  }

  /** One axis of sl_transform_direct_to_guest. */
  function AxisToGuest(a: Arith, v: int, scale: real, round: bool): int {
    var input := a.mul(scale, v as real);
    if round then ToInt32(LRound(input) as real) else ToInt32(input)
  }

  /** sl_transform_guest_to_host. */
  function GuestToHost(ctx: Context, s: Surface, v: Size): Size {
    if ctx.useDirectScale then
      var f := ScaleFactors(ctx, s);
      Size(AxisToHost(ctx.arith, v.w, f.x), AxisToHost(ctx.arith, v.h, f.y))
    else
      Size(AxisToHost(ctx.arith, v.w, ctx.scale), AxisToHost(ctx.arith, v.h, ctx.scale))
  }

  /** sl_transform_host_to_guest. */
  function HostToGuest(ctx: Context, s: Surface, v: Size): Size {
    if ctx.useDirectScale then
      var f := ScaleFactors(ctx, s);
      Size(AxisToGuest(ctx.arith, v.w, f.x, s.roundX), AxisToGuest(ctx.arith, v.h, f.y, s.roundY))
    else
      Size(AxisToGuest(ctx.arith, v.w, ctx.scale, false), AxisToGuest(ctx.arith, v.h, ctx.scale, false))
  }

  /** sl_transform_reset_surface_scale. */
  function ResetScale(s: Surface): Surface {
    s.(hasOwnScale := false, roundX := false, roundY := false, scale := Pair(0.0, 0.0))
  }

  /** The scale that maps `logical` to `pixels`. */
  function OwnScale(ctx: Context, s: Surface, pixels: Size, logical: Size): Surface
    requires logical.w > 0 && logical.h > 0
  {
    s.(hasOwnScale := true, cached := logical,
       scale := Pair(ctx.arith.div(pixels.w as real, logical.w as real),
                     ctx.arith.div(pixels.h as real, logical.h as real)))
  }

  /** sl_transform_try_window_scale. */
  function TryWindowScale(ctx: Context, s: Surface, pixels: Size): Surface {
    if !ctx.useDirectScale then s
    else
      var t := ResetScale(s);
      var logical := GuestToHost(ctx, t, pixels);
      var back := HostToGuest(ctx, t, logical);
      if (back.w != pixels.w || back.h != pixels.h) && logical.w > 0 && logical.h > 0 then
        var own := OwnScale(ctx, t, pixels, logical);
        var again := HostToGuest(ctx, own, GuestToHost(ctx, own, pixels));
        own.(roundX := again.w != pixels.w, roundY := again.h != pixels.h)
      else t
  }

  /** The logical size the window scale is computed for. */
  function LogicalSize(ctx: Context, s: Surface, pixels: Size): Size {
    GuestToHost(ctx, ResetScale(s), pixels)
  }

  // ----- which scale is used, and for what -----

  predicate Pixels(v: Size) {
    1 <= v.w <= INT32_MAX && 1 <= v.h <= INT32_MAX
  }

  /** r is the exact value up to one rounding error, and v is r truncated or rounded to nearest. */
  predicate Takes(v: int, exact: real, round: bool, r: real) {
    Near(r, exact) && v == if round then ToInt32(LRound(r) as real) else ToInt32(r)
  }

  ghost predicate Computed(v: int, exact: real, round: bool) {
    exists r: real :: Takes(v, exact, round, r)
  }

  function Over(p: int, f: real): real
    requires f > 0.0
  {
    p as real / f
  }

  function Times(f: real, l: int): real {
    f * l as real
  }

  lemma {:induction false} HostAxis(a: Arith, p: int, f: real)
    requires Accurate(a) && p >= 0 && f > 0.0
    ensures Computed(AxisToHost(a, p, f), Over(p, f), false)
  {
    assert DivOk(a, p as real, f);
    assert Takes(AxisToHost(a, p, f), Over(p, f), false, a.div(p as real, f));
  }

  lemma {:induction false} GuestAxis(a: Arith, l: int, f: real, round: bool)
    requires Accurate(a) && l >= 0 && f > 0.0
    ensures Computed(AxisToGuest(a, l, f, round), Times(f, l), round)
  {
    assert MulOk(a, f, l as real);
    assert Takes(AxisToGuest(a, l, f, round), Times(f, l), round, a.mul(f, l as real));
  }

  /** The scale that applies to a surface without one of its own: its output's, else the context's. */
  predicate Given(ctx: Context, s: Surface, f: Pair) {
    match s.output
    case Some(o) => f.x == o.x && f.y == o.y
    case None => f.x == ctx.xdgScale.x && f.y == ctx.xdgScale.y
  }

  /** The logical size is the pixel size over that scale, axis by axis. */
  lemma {:induction false} LogicalSizeIs(ctx: Context, s: Surface, pixels: Size, f: Pair)
    requires Accurate(ctx.arith) && ctx.useDirectScale && Pixels(pixels)
    requires Given(ctx, s, f) && f.x > 0.0 && f.y > 0.0
    ensures Computed(LogicalSize(ctx, s, pixels).w, Over(pixels.w, f.x), false)
    ensures Computed(LogicalSize(ctx, s, pixels).h, Over(pixels.h, f.y), false)
  {
    HostAxis(ctx.arith, pixels.w, f.x);
    HostAxis(ctx.arith, pixels.h, f.y);
  }

  /** Under the scale f the logical size maps back to the pixel size. */
  predicate MapsBack(a: Arith, logical: Size, pixels: Size, f: Pair) {
    AxisToGuest(a, logical.w, f.x, false) == pixels.w && AxisToGuest(a, logical.h, f.y, false) == pixels.h
  }

  /**
   * The window gets a scale of its own exactly when the logical size is
   * positive and does not map back under the given scale. It is then the
   * pixel size over the logical size, axis by axis; the logical size is
   * cached; and an axis is rounded exactly when its cycle is not exact.
   * Otherwise nothing is left of an earlier own scale.
   */
  lemma {:induction false} OwnScaleIff(ctx: Context, s: Surface, pixels: Size, f: Pair)
    requires Accurate(ctx.arith) && ctx.useDirectScale && Pixels(pixels) && Given(ctx, s, f)
    ensures var l, t, a := LogicalSize(ctx, s, pixels), TryWindowScale(ctx, s, pixels), ctx.arith;
            && t.output == s.output
            && (t.hasOwnScale <==> l.w > 0 && l.h > 0 && !MapsBack(a, l, pixels, f))
            && (t.hasOwnScale ==>
                  && Near(t.scale.x, pixels.w as real / l.w as real) && Near(t.scale.y, pixels.h as real / l.h as real)
                  && t.cached == l
                  && (t.roundX <==> AxisToGuest(a, AxisToHost(a, pixels.w, t.scale.x), t.scale.x, false) != pixels.w)
                  && (t.roundY <==> AxisToGuest(a, AxisToHost(a, pixels.h, t.scale.y), t.scale.y, false) != pixels.h))
            && (!t.hasOwnScale ==> !t.roundX && !t.roundY && t.scale == Pair(0.0, 0.0))
  {
    var l := LogicalSize(ctx, s, pixels);
    if l.w > 0 && l.h > 0 {
      assert DivOk(ctx.arith, pixels.w as real, l.w as real) && DivOk(ctx.arith, pixels.h as real, l.h as real);
    }
  }

  /** An own scale goes before all others, in both directions, with a rounding flag to each axis. */
  lemma {:induction false} OwnScaleApplies(ctx: Context, s: Surface, v: Size)
    requires Accurate(ctx.arith) && ctx.useDirectScale && s.hasOwnScale && s.scale.x > 0.0 && s.scale.y > 0.0
    requires v.w >= 0 && v.h >= 0
    ensures var h := GuestToHost(ctx, s, v);
            Computed(h.w, Over(v.w, s.scale.x), false) && Computed(h.h, Over(v.h, s.scale.y), false)
    ensures var g := HostToGuest(ctx, s, v);
            Computed(g.w, Times(s.scale.x, v.w), s.roundX) && Computed(g.h, Times(s.scale.y, v.h), s.roundY)
  {
    HostAxis(ctx.arith, v.w, s.scale.x);
    HostAxis(ctx.arith, v.h, s.scale.y);
    GuestAxis(ctx.arith, v.w, s.scale.x, s.roundX);
    GuestAxis(ctx.arith, v.h, s.scale.y, s.roundY);
  }

  /** Without direct scaling the context's one scale applies to both axes, and no window gets its own. */
  lemma {:induction false} PlainScaleApplies(ctx: Context, s: Surface, v: Size)
    requires Accurate(ctx.arith) && !ctx.useDirectScale && ctx.scale > 0.0 && v.w >= 0 && v.h >= 0
    ensures var h := GuestToHost(ctx, s, v);
            Computed(h.w, Over(v.w, ctx.scale), false) && Computed(h.h, Over(v.h, ctx.scale), false)
    ensures var g := HostToGuest(ctx, s, v);
            Computed(g.w, Times(ctx.scale, v.w), false) && Computed(g.h, Times(ctx.scale, v.h), false)
    ensures TryWindowScale(ctx, s, v) == s
  {
    HostAxis(ctx.arith, v.w, ctx.scale);
    HostAxis(ctx.arith, v.h, ctx.scale);
    GuestAxis(ctx.arith, v.w, ctx.scale, false);
    GuestAxis(ctx.arith, v.h, ctx.scale, false);
  }

  // ----- error analysis on one axis -----

  lemma {:induction false} MulMono(a: real, b: real, c: real)
    requires a <= b && 0.0 <= c
    ensures a * c <= b * c
  {
  }

  lemma {:induction false} DivTimes(x: real, y: real)
    requires y != 0.0
    ensures x / y * y == x
  {
  }

  lemma {:induction false} Associative(x: real, y: real, z: real)
    ensures x * y * z == x * (y * z)
  {
  }

  lemma {:induction false} ProductNonNegative(x: real, y: real)
    requires x >= 0.0 && y >= 0.0
    ensures x * y >= 0.0
  {
  }

  lemma {:induction false} QuotientNonNegative(x: real, y: real)
    requires x >= 0.0 && y > 0.0
    ensures x / y >= 0.0
    ensures x > 0.0 ==> x / y > 0.0
  {
    DivTimes(x, y);
  }

  /** w * U is far below one half for any 32-bit size. */
  lemma {:induction false} SmallError(w: int)
    requires 1 <= w <= INT32_MAX
    ensures w as real * U * 8.0 < 0.001
  {
    assert w as real <= 2147483647.0;
    MulMono(w as real, 2147483647.0, U);
  }

  /** The computed scale times the logical size is within one rounding of the pixel size. */
  lemma {:induction false} ScaleTimesLogical(a: Arith, w: int, l: int)
    requires Accurate(a) && 1 <= w <= INT32_MAX && 1 <= l <= INT32_MAX
    ensures var s := a.div(w as real, l as real);
            s > 0.0 && (1.0 - U) * w as real <= s * l as real <= (1.0 + U) * w as real
  {
    var q := w as real / l as real;
    assert DivOk(a, w as real, l as real);
    DivTimes(w as real, l as real);
    QuotientNonNegative(w as real, l as real);
    ScaledNear(a.div(w as real, l as real), q, w as real, l as real);
  }

  lemma {:induction false} ScaledNear(s: real, q: real, w: real, l: real)
    requires Near(s, q) && q > 0.0 && l > 0.0 && q * l == w
    ensures s > 0.0 && (1.0 - U) * w <= s * l <= (1.0 + U) * w
  {
    MulMono((1.0 - U) * q, s, l);
    MulMono(s, (1.0 + U) * q, l);
    Associative(1.0 - U, q, l);
    Associative(1.0 + U, q, l);
    assert s > 0.0 by {
      MulMono(0.5, 1.0 - U, q);
    }
  }

  /** Mapping the logical size back lands within a quarter pixel of the pixel size. */
  lemma {:induction false} BackNear(a: Arith, w: int, l: int)
    requires Accurate(a) && 1 <= w <= INT32_MAX && 1 <= l <= INT32_MAX
    ensures var v := a.mul(a.div(w as real, l as real), l as real);
            w as real - 0.25 < v < w as real + 0.25
  {
    var s := a.div(w as real, l as real);
    ScaleTimesLogical(a, w, l);
    assert MulOk(a, s, l as real);
    SmallError(w);
    NearTwice(a.mul(s, l as real), s * l as real, w as real);
  }

  lemma {:induction false} NearTwice(v: real, p: real, w: real)
    requires Near(v, p) && (1.0 - U) * w <= p <= (1.0 + U) * w && w >= 1.0 && w * U * 8.0 < 0.001
    ensures w - 0.25 < v < w + 0.25
  {
  }

  /** Recomputing the logical size under the computed scale never exceeds it. */
  lemma {:induction false} AgainAtMost(a: Arith, w: int, l: int)
    requires Accurate(a) && 1 <= w <= INT32_MAX && 1 <= l <= INT32_MAX
    ensures var s := a.div(w as real, l as real);
            s > 0.0 && 0.0 <= a.div(w as real, s) < l as real + 1.0
  {
    var s := a.div(w as real, l as real);
    ScaleTimesLogical(a, w, l);
    var r := w as real / s;
    assert DivOk(a, w as real, s) && Near(a.div(w as real, s), r);
    QuotientBound(w as real, s, l as real);
    SmallError(l);
    BoundedQuotient(r, l as real);
    assert r >= 0.0;
  }

  lemma {:induction false} Cancel(x: real, y: real, s: real)
    requires s > 0.0 && x * s <= y * s
    ensures x <= y
  {
  }

  lemma {:induction false} QuotientBound(w: real, s: real, l: real)
    requires s > 0.0 && (1.0 - U) * w <= s * l
    ensures (1.0 - U) * (w / s) <= l
  {
    DivTimes(w, s);
    assert (1.0 - U) * (w / s) * s == (1.0 - U) * (w / s * s);
    Cancel((1.0 - U) * (w / s), l, s);
  }

  lemma {:induction false} BoundedQuotient(r: real, l: real)
    requires 1.0 <= l && l * U * 8.0 < 0.001 && (1.0 - U) * r <= l
    ensures (1.0 + U) * r < l + 1.0
  {
    var m := l * (1.0 + 4.0 * U);
    assert m * (1.0 - U) == l + l * U * (3.0 - 4.0 * U);
    MulMono(1.0, 3.0 - 4.0 * U, l * U);
    Cancel(r, m, 1.0 - U);
    MulMono(r, m, 1.0 + U);
    assert m * (1.0 + U) == l + l * U * (5.0 + 4.0 * U);
    MulMono(5.0 + 4.0 * U, 6.0, l * U);
  }

  /** l * (2U + U^2) stays below 1 - U^2. */
  lemma {:induction false} CombinedError(l: real)
    requires 1.0 <= l && l * U * 8.0 < 0.001
    ensures l * (2.0 * U + U * U) - (1.0 - U * U) < -0.9
  {
    MulMono(U, 1.0, l * U);
    assert l * (2.0 * U + U * U) == 2.0 * (l * U) + U * (l * U);
  }

  lemma {:induction false} Expand(q: real, l: real)
    ensures ((1.0 + U) * (q * l) - (1.0 - U) * q) * (1.0 + U)
         == q * l + (l * (2.0 * U + U * U) - (1.0 - U * U)) * q
  {
    var p := q * l;
    assert l * (2.0 * U + U * U) * q == (2.0 * U + U * U) * p;
  }

  lemma {:induction false} FallShort(s: real, q: real, l: real, m: real)
    requires q > 0.0 && s >= 0.0 && 1.0 <= l && l * U * 8.0 < 0.001
    requires (1.0 - U) * q <= s && s * l <= (1.0 + U) * (q * l) && m <= l - 1.0
    ensures (1.0 + U) * (s * m) <= q * l - 0.9 * q
  {
    var b := (1.0 + U) * (q * l) - (1.0 - U) * q;
    assert s * m <= b by {
      MulMono(m, l - 1.0, s);
      assert (l - 1.0) * s == s * l - s;
    }
    MulMono(s * m, b, 1.0 + U);
    assert b * (1.0 + U) <= q * l - 0.9 * q by {
      Expand(q, l);
      CombinedError(l);
      MulMono(l * (2.0 * U + U * U) - (1.0 - U * U), -0.9, q);
    }
  }

  /** A smaller logical size maps to less than the pixel size, by almost a whole scale step. */
  lemma {:induction false} SmallerFallsShort(a: Arith, w: int, l: int, l': int)
    requires Accurate(a) && 1 <= w <= INT32_MAX && 1 <= l <= INT32_MAX && 0 <= l' < l
    ensures var s := a.div(w as real, l as real);
            0.0 <= a.mul(s, l' as real) <= w as real - 0.9 * (w as real / l as real)
  {
    var s := a.div(w as real, l as real);
    var q := w as real / l as real;
    ScaleTimesLogical(a, w, l);
    DivTimes(w as real, l as real);
    QuotientNonNegative(w as real, l as real);
    SmallError(l);
    assert DivOk(a, w as real, l as real) && MulOk(a, s, l' as real);
    FallShort(s, q, l as real, l' as real);
    ProductNonNegative(s, l' as real);
  }

  lemma {:induction false} RoundedBack(v: real, w: int)
    requires 1 <= w <= INT32_MAX && w as real - 0.25 < v < w as real + 0.25
    ensures LRound(v) == w && ToInt32(LRound(v) as real) == w
  {
    assert LRound(v) == w;
    assert Trunc(w as real) == w;
  }

  /** The recomputed logical size is the old one or less, without overflow. */
  lemma {:induction false} AgainInRange(a: Arith, w: int, l: int)
    requires Accurate(a) && 1 <= w <= INT32_MAX && 1 <= l <= INT32_MAX
    ensures 0 <= AxisToHost(a, w, a.div(w as real, l as real)) <= l
  {
    AgainAtMost(a, w, l);
    var v := a.div(w as real, a.div(w as real, l as real));
    assert 0 <= Trunc(v) <= l;
  }

  /** A smaller logical size does not map back to the pixel size by truncation. */
  lemma {:induction false} SmallerTruncates(a: Arith, w: int, l: int, l': int)
    requires Accurate(a) && 1 <= w <= INT32_MAX && 1 <= l <= INT32_MAX && 0 <= l' < l
    ensures AxisToGuest(a, l', a.div(w as real, l as real), false) < w
  {
    SmallerFallsShort(a, w, l, l');
    var v := a.mul(a.div(w as real, l as real), l' as real);
    assert w as real / l as real > 0.0;
    assert Trunc(v) < w;
  }

  /**
   * One axis of the round trip: with the rounding flag chosen as the code
   * chooses it, the logical size maps back to exactly the pixel size.
   */
  lemma {:induction false} AxisRoundTrip(a: Arith, w: int, l: int)
    requires Accurate(a) && 1 <= w <= INT32_MAX && 1 <= l <= INT32_MAX
    ensures var s := a.div(w as real, l as real);
            AxisToGuest(a, l, s, AxisToGuest(a, AxisToHost(a, w, s), s, false) != w) == w
  {
    var s := a.div(w as real, l as real);
    var l' := AxisToHost(a, w, s);
    BackNear(a, w, l);
    RoundedBack(a.mul(s, l as real), w);
    AgainInRange(a, w, l);
    if l' < l {
      SmallerTruncates(a, w, l, l');
    }
  }

  /**
   * The window scale round trip: whenever both logical sizes are positive,
   * mapping the logical size back after try_window_scale gives exactly the
   * pixel size, for any accurate arithmetic and any scale factors.
   */
  lemma {:induction false} WindowScaleRoundTrip(ctx: Context, s: Surface, pixels: Size)
    requires Accurate(ctx.arith) && ctx.useDirectScale && Pixels(pixels)
    requires LogicalSize(ctx, s, pixels).w > 0 && LogicalSize(ctx, s, pixels).h > 0
    ensures HostToGuest(ctx, TryWindowScale(ctx, s, pixels), LogicalSize(ctx, s, pixels)) == pixels
    ensures var t := TryWindowScale(ctx, s, pixels); t.hasOwnScale ==> HostToGuest(ctx, t, t.cached) == pixels
  {
    var logical := LogicalSize(ctx, s, pixels);
    AxisRoundTrip(ctx.arith, pixels.w, logical.w);
    AxisRoundTrip(ctx.arith, pixels.h, logical.h);
  }

  ghost predicate Exact(a: Arith) {
    && (forall x: real, y: real :: a.mul(x, y) == x * y)
    && (forall x: real, y: real :: y != 0.0 ==> a.div(x, y) == x / y)
  }

  lemma {:induction false} ExactIsAccurate(a: Arith)
    requires Exact(a)
    ensures Accurate(a)
  {
    forall x: real, y: real
      ensures MulOk(a, x, y) && DivOk(a, x, y)
    {
      if x >= 0.0 && y >= 0.0 {
        ProductNonNegative(x, y);
        NearItself(x * y);
      }
      if x >= 0.0 && y > 0.0 {
        QuotientNonNegative(x, y);
        NearItself(x / y);
      }
    }
  }

  lemma {:induction false} NearItself(v: real)
    requires v >= 0.0
    ensures Near(v, v)
  {
    MulMono(1.0 - U, 1.0, v);
    MulMono(1.0, 1.0 + U, v);
  }

  /** A value scaled by one rounding is near it. */
  lemma {:induction false} NearScaled(v: real)
    requires v >= 0.0
    ensures Near(v * (1.0 - U), v) && Near(v * (1.0 + U), v)
  {
    MulMono(1.0 - U, 1.0 + U, v);
  }

  lemma {:induction false} QuotientBack(w: real, l: real)
    requires w > 0.0 && l > 0.0
    ensures w / l > 0.0 && w / (w / l) == l
  {
    var s := w / l;
    DivTimes(w, l);
    assert s > 0.0;
    DivTimes(w, s);
    Cancel(w / s, l, s);
    Cancel(l, w / s, s);
  }

  lemma {:induction false} ExactAxis(a: Arith, w: int, l: int)
    requires Exact(a) && 1 <= w <= INT32_MAX && 1 <= l <= INT32_MAX
    ensures var s := a.div(w as real, l as real);
            AxisToHost(a, w, s) == l && AxisToGuest(a, l, s, false) == w
  {
    DivTimes(w as real, l as real);
    QuotientBack(w as real, l as real);
    assert Trunc(l as real) == l && Trunc(w as real) == w;
  }

  /** Under exact arithmetic the rounding flags stay clear. */
  lemma {:induction false} ExactNeedsNoRounding(ctx: Context, s: Surface, pixels: Size)
    requires Exact(ctx.arith) && ctx.useDirectScale && Pixels(pixels)
    ensures !TryWindowScale(ctx, s, pixels).roundX && !TryWindowScale(ctx, s, pixels).roundY
  {
    var logical := LogicalSize(ctx, s, pixels);
    if logical.w > 0 && logical.h > 0 {
      ExactAxis(ctx.arith, pixels.w, logical.w);
      ExactAxis(ctx.arith, pixels.h, logical.h);
    }
  }

  // ----- binary64 -----

  function Pow2(k: nat): nat {
    if k == 0 then 1 else 2 * Pow2(k - 1)
  }

  ghost predicate PowerOfTwo(n: int) {
    exists k: nat :: Pow2(k) == n
  }

  /** 2^52, the least significand. */
  const HIDDEN: real := 4503599627370496.0

  /** The significand x * n has 53 bits and m is nearest to it; ties go to the even one. */
  predicate NearestInt(x: real, m: int, n: int) {
    && HIDDEN <= x * n as real < 2.0 * HIDDEN
    && m as real - 0.5 <= x * n as real <= m as real + 0.5
    && (m % 2 == 0 || m as real - 0.5 < x * n as real < m as real + 0.5)
  }

  /** x rounds to the double m / n. */
  ghost predicate Nearest(x: real, m: int, n: int) {
    PowerOfTwo(n) && n > 0 && NearestInt(x, m, n)
  }

  /** Rounding to nearest, for the values below 2^53; those beyond do not occur with 32-bit sizes. */
  ghost function Rounded(x: real): real {
    if m: int, n: int :| Nearest(x, m, n) then m as real / n as real else x
  }

  ghost function RoundedProduct(x: real, y: real): real {
    Rounded(x * y)
  }

  ghost function RoundedQuotient(x: real, y: real): real {
    if y == 0.0 then 0.0 else Rounded(x / y)
  }

  ghost const Doubles: Arith := Arith(RoundedProduct, RoundedQuotient)

  lemma {:induction false} PowAtLeast(j: nat, k: nat)
    requires j <= k
    ensures 1 <= Pow2(j) <= Pow2(k)
  {
    if j < k {
      PowAtLeast(j, k - 1);
    } else if j > 0 {
      PowAtLeast(j - 1, j - 1);
    }
  }

  lemma {:induction false} PowersApart(n: int, k: int)
    requires PowerOfTwo(n) && PowerOfTwo(k) && n < k
    ensures 2 * n <= k
  {
    var i: nat :| Pow2(i) == n;
    var j: nat :| Pow2(j) == k;
    if j <= i {
      PowAtLeast(j, i);
    } else {
      PowAtLeast(i + 1, j);
    }
  }

  /** The scale of the significand is determined by the value. */
  lemma {:induction false} OneScale(x: real, n: int, k: int)
    requires PowerOfTwo(n) && PowerOfTwo(k) && 0 < n < k && HIDDEN <= x * n as real
    ensures x * k as real >= 2.0 * HIDDEN
  {
    PowersApart(n, k);
    assert x > 0.0;
    MulMono(2.0 * n as real, k as real, x);
  }

  lemma {:induction false} NearestIntIsOne(x: real, m: int, m': int, n: int)
    requires NearestInt(x, m, n) && NearestInt(x, m', n) && m <= m'
    ensures m == m'
  {
  }

  lemma {:induction false} NearestIsOne(x: real, m: int, n: int, m': int, n': int)
    requires Nearest(x, m, n) && Nearest(x, m', n')
    ensures m == m' && n == n'
  {
    if n < n' {
      OneScale(x, n, n');
    } else if n' < n {
      OneScale(x, n', n);
    } else if m <= m' {
      NearestIntIsOne(x, m, m', n);
    } else {
      NearestIntIsOne(x, m', m, n);
    }
  }

  lemma {:induction false} RoundsTo(x: real, m: int, n: int)
    requires Nearest(x, m, n)
    ensures Rounded(x) == m as real / n as real
  {
    var m', n' :| Nearest(x, m', n') && Rounded(x) == m' as real / n' as real;
    NearestIsOne(x, m, n, m', n');
  }

  /** r is the double m / n. */
  lemma {:induction false} HalfUnit(r: real, x: real, m: int, n: real)
    requires n > 0.0 && r * n == m as real && HIDDEN <= x * n && m as real - 0.5 <= x * n <= m as real + 0.5
    ensures Near(r, x)
  {
    assert U * (x * n) >= 0.5;
    assert (1.0 - U) * x * n == x * n - U * (x * n) && (1.0 + U) * x * n == x * n + U * (x * n);
    Cancel((1.0 - U) * x, r, n);
    Cancel(r, (1.0 + U) * x, n);
  }

  lemma {:induction false} RoundedNear(x: real)
    requires x >= 0.0
    ensures Near(Rounded(x), x)
  {
    if m: int, n: int :| Nearest(x, m, n) {
      RoundsTo(x, m, n);
      DivTimes(m as real, n as real);
      HalfUnit(Rounded(x), x, m, n as real);
    } else {
      NearItself(x);
    }
  }

  lemma {:induction false} DoublesMulOk(x: real, y: real)
    ensures MulOk(Doubles, x, y)
  {
    if x >= 0.0 && y >= 0.0 {
      ProductNonNegative(x, y);
      RoundedNear(x * y);
    }
  }

  lemma {:induction false} DoublesDivOk(x: real, y: real)
    ensures DivOk(Doubles, x, y)
  {
    if x >= 0.0 && y > 0.0 {
      QuotientNonNegative(x, y);
      RoundedNear(x / y);
    }
  }

  /** Doubles are one of the machines the theorems are about. */
  lemma {:induction false} DoublesAccurate()
    ensures Accurate(Doubles)
  {
    forall x: real, y: real
      ensures MulOk(Doubles, x, y) && DivOk(Doubles, x, y)
    {
      DoublesMulOk(x, y);
      DoublesDivOk(x, y);
    }
  }

  const P47: int := 140737488355328
  const P49: int := 562949953421312
  const P50: int := 1125899906842624
  const P52: int := 4503599627370496

  lemma {:induction false} PowAdd(j: nat, k: nat)
    ensures Pow2(j + k) == Pow2(j) * Pow2(k)
    decreases j
  {
    if j > 0 {
      PowAdd(j - 1, k);
    }
  }

  lemma {:induction false} PowerProduct(n: int, k: int)
    requires PowerOfTwo(n) && PowerOfTwo(k)
    ensures PowerOfTwo(n * k)
  {
    var i: nat :| Pow2(i) == n;
    var j: nat :| Pow2(j) == k;
    PowAdd(i, j);
  }

  lemma {:induction false} SmallPowers()
    ensures PowerOfTwo(4) && PowerOfTwo(128) && PowerOfTwo(512) && PowerOfTwo(1024)
  {
    assert Pow2(2) == 4;
    assert Pow2(7) == 128;
    assert Pow2(9) == 512;
    assert Pow2(10) == 1024;
  }

  lemma {:induction false} Powers()
    ensures PowerOfTwo(P47) && PowerOfTwo(P49) && PowerOfTwo(P50) && PowerOfTwo(P52)
  {
    SmallPowers();
    PowerProduct(1024, 1024);
    PowerProduct(1048576, 1048576);
    PowerProduct(1099511627776, 128);
    PowerProduct(1099511627776, 512);
    PowerProduct(1099511627776, 1024);
    PowerProduct(1125899906842624, 4);
  }

  lemma {:induction false} Quotient(x: real, y: real, m: int, n: int)
    requires y > 0.0 && PowerOfTwo(n) && n > 0 && NearestInt(x / y, m, n)
    ensures Doubles.div(x, y) == m as real / n as real
  {
    RoundsTo(x / y, m, n);
  }

  lemma {:induction false} Product(x: real, y: real, m: int, n: int)
    requires PowerOfTwo(n) && n > 0 && NearestInt(x * y, m, n)
    ensures Doubles.mul(x, y) == m as real / n as real
  {
    RoundsTo(x * y, m, n);
  }

  /** 61 pixels over 7: the double scale, and its product with 7, which is just below 61. */
  const Scale61: real := 4905706736957147.0 / 562949953421312.0
  const Back61: real := 8584986789675007.0 / 140737488355328.0

  lemma {:induction false} SixtyOneOverSeven()
    ensures Doubles.div(61.0, 8.0) == 7.625 && Doubles.mul(8.0, 7.0) == 56.0
    ensures Doubles.div(61.0, 7.0) == Scale61 && Doubles.mul(Scale61, 7.0) == Back61
    ensures Doubles.div(61.0, Scale61) == 7881299347898369.0 / 1125899906842624.0
  {
    Powers();
    Quotient(61.0, 8.0, 8584986789675008, P50);
    Product(8.0, 7.0, 7881299347898368, P47);
    Quotient(61.0, 7.0, 4905706736957147, P49);
    Product(Scale61, 7.0, 8584986789675007, P47);
    Quotient(61.0, Scale61, 7881299347898369, P50);
  }

  /**
   * The flag is what makes the round trip hold: in doubles a window of 61
   * pixels at scale 8 gets it, and without it would come back as 60.
   */
  lemma {:induction false} FlagIsNeeded(s: Surface)
    requires s.output.None?
    ensures var ctx := Context(Doubles, true, Pair(8.0, 8.0), 1.0);
            var t := TryWindowScale(ctx, s, Size(61, 61));
            && LogicalSize(ctx, s, Size(61, 61)) == Size(7, 7)
            && t.roundX && t.roundY
            && HostToGuest(ctx, t, Size(7, 7)) == Size(61, 61)
            && HostToGuest(ctx, t.(roundX := false, roundY := false), Size(7, 7)) == Size(60, 60)
  {
    SixtyOneOverSeven();
    assert AxisToHost(Doubles, 61, 8.0) == 7;
    assert AxisToGuest(Doubles, 7, 8.0, false) == 56;
    assert AxisToHost(Doubles, 61, Scale61) == 7;
    assert AxisToGuest(Doubles, 7, Scale61, false) == 60;
    assert AxisToGuest(Doubles, 7, Scale61, true) == 61;
  }

  // ----- the full cycle -----

  /** The scale is one half, up to the rounding errors of the cycle. */
  predicate NearHalf(w: int, l: int) {
    var slack := 5.0 * U * (w as real * l as real);
    -slack < 2.0 * w as real - l as real < slack
  }

  /**
   * Pixels to logical and back under the window's own scale (the cycle that
   * try_window_scale repeats) is exact if and only if the logical size
   * recomputed under that scale is the cached one, or the scale is below one
   * half, where rounding makes up for the missing pixel.
   */
  lemma {:induction false} CycleExactIff(a: Arith, w: int, l: int)
    requires Accurate(a) && 1 <= w <= INT32_MAX && 1 <= l <= INT32_MAX && !NearHalf(w, l)
    ensures var s := a.div(w as real, l as real);
            var round := AxisToGuest(a, AxisToHost(a, w, s), s, false) != w;
            AxisToGuest(a, AxisToHost(a, w, s), s, round) == w <==> AxisToHost(a, w, s) == l || 2 * w < l
  {
    var s := a.div(w as real, l as real);
    var l' := AxisToHost(a, w, s);
    OneShort(a, w, l);
    if l' == l {
      AxisRoundTrip(a, w, l);
    } else {
      SmallerTruncates(a, w, l, l - 1);
      SlackPositive(w as real, l as real);
      if 2 * w < l {
        OneShortRounds(a, w, l);
      } else {
        OneShortFails(a, w, l);
      }
    }
  }

  lemma {:induction false} SlackPositive(w: real, l: real)
    requires w >= 1.0 && l >= 1.0
    ensures 5.0 * U * (w * l) > 0.0
  {
    MulMono(1.0, w, l);
  }

  /** For sizes with a product below 2^50 that leaves out a scale of exactly one half and nothing else. */
  lemma {:induction false} NearHalfIff(w: int, l: int)
    requires 1 <= w && 1 <= l && w * l <= 1125899906842624
    ensures NearHalf(w, l) <==> l == 2 * w
  {
    assert (w * l) as real == w as real * l as real;
    SlackPositive(w as real, l as real);
  }

  lemma {:induction false} QuotientAtLeast(w: real, s: real, l: real)
    requires s > 0.0 && l >= 0.0 && s * l <= (1.0 + U) * w
    ensures l <= (1.0 + U) * (w / s)
  {
    DivTimes(w, s);
    Associative(1.0 + U, w / s, s);
    Cancel(l, (1.0 + U) * (w / s), s);
  }

  /** The recomputed logical size is at most one less than the cached one. */
  lemma {:induction false} OneShort(a: Arith, w: int, l: int)
    requires Accurate(a) && 1 <= w <= INT32_MAX && 1 <= l <= INT32_MAX
    ensures l - 1 <= AxisToHost(a, w, a.div(w as real, l as real)) <= l
  {
    var s := a.div(w as real, l as real);
    ScaleTimesLogical(a, w, l);
    AgainInRange(a, w, l);
    var r := w as real / s;
    assert DivOk(a, w as real, s) && Near(a.div(w as real, s), r);
    QuotientAtLeast(w as real, s, l as real);
    SmallError(l);
    assert a.div(w as real, s) > l as real - 1.0 by {
      BarelyLess(r, l as real);
    }
  }

  lemma {:induction false} BarelyLess(r: real, l: real)
    requires l >= 1.0 && l * U * 8.0 < 0.001 && l <= (1.0 + U) * r
    ensures (1.0 - U) * r > l - 1.0
  {
    var d := l * (1.0 - 2.0 * U);
    assert d * (1.0 + U) == l - l * U * (1.0 + 2.0 * U);
    MulMono(0.0, 1.0 + 2.0 * U, l * U);
    Cancel(d, r, 1.0 + U);
    MulMono(d, r, 1.0 - U);
    assert d * (1.0 - U) == l - l * U * (3.0 - 2.0 * U);
    MulMono(3.0 - 2.0 * U, 3.0, l * U);
  }

  lemma {:induction false} Distribute(s: real, l: real)
    ensures s * (l - 1.0) == s * l - s
  {
  }

  lemma {:induction false} OneShortNear(a: Arith, w: int, l: int)
    requires Accurate(a) && 1 <= w <= INT32_MAX && 1 <= l <= INT32_MAX
    ensures var s := a.div(w as real, l as real); Near(a.mul(s, l as real - 1.0), s * l as real - s)
  {
    var s := a.div(w as real, l as real);
    ScaleTimesLogical(a, w, l);
    Distribute(s, l as real);
    assert MulOk(a, s, l as real - 1.0) && l as real - 1.0 >= 0.0;
    assert Near(a.mul(s, l as real - 1.0), s * (l as real - 1.0));
  }

  lemma {:induction false} QuotientAtMost(w: real, l: real)
    requires w > 0.0 && l >= 1.0
    ensures 0.0 < w / l <= w
  {
    QuotientNonNegative(w, l);
    DivTimes(w, l);
    MulMono(1.0, l, w / l);
  }

  /** The product one logical size down: w less the scale, up to the errors of three operations. */
  lemma {:induction false} OneShortProduct(a: Arith, w: int, l: int)
    requires Accurate(a) && 1 <= w <= INT32_MAX && 1 <= l <= INT32_MAX
    ensures var q, v := w as real / l as real, a.mul(a.div(w as real, l as real), l as real - 1.0);
            w as real * (1.0 - 2.0 * U) - q <= v <= w as real * (1.0 + 2.0 * U + U * U) - q * (1.0 - U * U)
  {
    var s, q := a.div(w as real, l as real), w as real / l as real;
    var v, p := a.mul(s, l as real - 1.0), s * l as real;
    assert Near(v, p - s) by {
      OneShortNear(a, w, l);
    }
    assert Near(s, q) by {
      assert DivOk(a, w as real, l as real);
    }
    assert (1.0 - U) * w as real <= p <= (1.0 + U) * w as real by {
      ScaleTimesLogical(a, w, l);
    }
    assert 0.0 < q by {
      QuotientAtMost(w as real, l as real);
    }
    OneShortBounds(v, p, s, q, w as real);
  }

  /** p is the scale s times the logical size. */
  lemma {:induction false} OneShortBounds(v: real, p: real, s: real, q: real, w: real)
    requires Near(v, p - s) && (1.0 - U) * w <= p <= (1.0 + U) * w && Near(s, q) && 0.0 < q && 1.0 <= w
    ensures w * (1.0 - 2.0 * U) - q <= v <= w * (1.0 + 2.0 * U + U * U) - q * (1.0 - U * U)
  {
    var lo, hi := (1.0 - U) * w - (1.0 + U) * q, (1.0 + U) * w - (1.0 - U) * q;
    MulMono(lo, p - s, 1.0 - U);
    MulMono(p - s, hi, 1.0 + U);
    assert lo * (1.0 - U) == w * (1.0 - 2.0 * U) - q + U * U * (w + q);
    assert hi * (1.0 + U) == w * (1.0 + 2.0 * U + U * U) - q * (1.0 - U * U);
  }

  lemma {:induction false} BelowHalf(w: real, l: real)
    requires 0.0 < l && 5.0 * U * (w * l) <= l - 2.0 * w
    ensures w / l <= 0.5 - 2.5 * U * w
  {
    DivTimes(w, l);
    assert (0.5 - 2.5 * U * w) * l == 0.5 * l - 2.5 * U * (w * l);
    Cancel(w / l, 0.5 - 2.5 * U * w, l);
  }

  lemma {:induction false} AboveHalf(w: real, l: real)
    requires 0.0 < l && 5.0 * U * (w * l) <= 2.0 * w - l
    ensures w / l >= 0.5 + 2.5 * U * w
  {
    DivTimes(w, l);
    assert (0.5 + 2.5 * U * w) * l == 0.5 * l + 2.5 * U * (w * l);
    Cancel(0.5 + 2.5 * U * w, w / l, l);
  }

  /** Below one half a logical size that is one short still rounds to the pixel size. */
  lemma {:induction false} OneShortRounds(a: Arith, w: int, l: int)
    requires Accurate(a) && 1 <= w <= INT32_MAX && 1 <= l <= INT32_MAX && !NearHalf(w, l) && 2 * w < l
    ensures AxisToGuest(a, l - 1, a.div(w as real, l as real), true) == w
  {
    var v := a.mul(a.div(w as real, l as real), l as real - 1.0);
    SlackPositive(w as real, l as real);
    BelowHalf(w as real, l as real);
    OneShortProduct(a, w, l);
    assert (l - 1) as real == l as real - 1.0;
    assert v < w as real by {
      SmallerFallsShort(a, w, l, l - 1);
      QuotientAtMost(w as real, l as real);
    }
    assert w as real - 0.5 < v;
    RoundsUp(v, w);
  }

  /** Above one half it does not. */
  lemma {:induction false} OneShortFails(a: Arith, w: int, l: int)
    requires Accurate(a) && 1 <= w <= INT32_MAX && 1 <= l <= INT32_MAX && !NearHalf(w, l) && l < 2 * w
    ensures AxisToGuest(a, l - 1, a.div(w as real, l as real), true) < w
  {
    var v := a.mul(a.div(w as real, l as real), l as real - 1.0);
    AboveHalf(w as real, l as real);
    QuotientAtMost(w as real, l as real);
    OneShortProduct(a, w, l);
    FarBelow(v, w as real, w as real / l as real);
    assert (l - 1) as real == l as real - 1.0;
    SmallerFallsShort(a, w, l, l - 1);
    assert 0 <= LRound(v) < w;
    assert Trunc(LRound(v) as real) == LRound(v);
  }

  lemma {:induction false} FarBelow(v: real, w: real, q: real)
    requires v <= w * (1.0 + 2.0 * U + U * U) - q * (1.0 - U * U) && 0.5 + 2.5 * U * w <= q <= w && w >= 1.0
    ensures v < w - 0.5
  {
    MulMono(q, w, U * U);
    MulMono(4.0 * U, 1.0, U * w);
  }

  lemma {:induction false} RoundsUp(v: real, w: int)
    requires 1 <= w <= INT32_MAX && w as real - 0.5 < v < w as real
    ensures ToInt32(LRound(v) as real) == w
  {
    assert LRound(v) == w;
    assert Trunc(w as real) == w;
  }

  /** At one half: a machine whose halves are slightly high, and one whose products are low besides. */
  function HighHalves(low: bool): Arith {
    Arith((x: real, y: real) => if low then x * y * (1.0 - U) else x * y,
          (x: real, y: real) => if y == 0.0 then 0.0 else if y == 2.0 then x / y * (1.0 + U) else x / y)
  }

  lemma {:induction false} HighHalvesOk(low: bool, x: real, y: real)
    ensures MulOk(HighHalves(low), x, y) && DivOk(HighHalves(low), x, y)
  {
    if x >= 0.0 && y >= 0.0 {
      ProductNonNegative(x, y);
      NearScaled(x * y);
      NearItself(x * y);
    }
    if x >= 0.0 && y > 0.0 {
      QuotientNonNegative(x, y);
      NearScaled(x / y);
      NearItself(x / y);
    }
  }

  lemma {:induction false} HighHalvesAccurate(low: bool)
    ensures Accurate(HighHalves(low))
  {
    forall x: real, y: real
      ensures MulOk(HighHalves(low), x, y) && DivOk(HighHalves(low), x, y)
    {
      HighHalvesOk(low, x, y);
    }
  }

  /** At a scale of one half it depends on the machine: two accurate ones recompute 1 for 2, and one gets the pixel back. */
  lemma {:induction false} HalfDependsOnMachine(low: bool)
    ensures Accurate(HighHalves(low)) && NearHalf(1, 2)
    ensures var a := HighHalves(low); var s := a.div(1.0, 2.0);
            && AxisToHost(a, 1, s) == 1 && AxisToGuest(a, 1, s, false) == 0
            && AxisToGuest(a, 1, s, true) == if low then 0 else 1
  {
    HighHalvesAccurate(low);
    var a := HighHalves(low);
    var s := a.div(1.0, 2.0);
    assert s == 0.5 * (1.0 + U);
    assert a.div(1.0, s) == 1.0 / s;
    DivTimes(1.0, s);
    Cancel(1.0 / s, 2.0, s);
    Cancel(1.0, 1.0 / s, s);
    assert 1.0 <= 1.0 / s < 2.0;
    var v := a.mul(s, 1.0);
    assert v == if low then s * (1.0 - U) else s;
    assert if low then 0.0 <= v < 0.5 else 0.5 <= v < 1.0;
  }

  lemma {:induction false} WholeSignificand(x: real, h: int, j: int)
    requires 2.0 * x == h as real
    ensures x * (2 * j) as real == (h * j) as real
  {
    assert (2 * j) as real == 2.0 * j as real;
    assert (h * j) as real == h as real * j as real;
    Associative(x, 2.0, j as real);
  }

  lemma {:induction false} WholeIsNearest(x: real, m: int, n: int, k: int)
    requires NearestInt(x, m, n) && x * n as real == k as real
    ensures m == k
  {
  }

  lemma {:induction false} SameQuotient(x: real, m: real, n: real)
    requires n > 0.0 && x * n == m
    ensures m / n == x
  {
  }

  /** A multiple of one half is a double. */
  lemma {:induction false} RoundedHalves(x: real, h: int)
    requires 2.0 * x == h as real && 0 < h <= 0x2_0000_0000
    ensures Rounded(x) == x
  {
    if m: int, n: int :| Nearest(x, m, n) {
      RoundsTo(x, m, n);
      EvenPower(x, n);
      WholeSignificand(x, h, n / 2);
      WholeIsNearest(x, m, n, h * (n / 2));
      SameQuotient(x, m as real, n as real);
    }
  }

  lemma {:induction false} EvenPower(x: real, n: int)
    requires PowerOfTwo(n) && n > 0 && x <= 4294967296.0 && HIDDEN <= x * n as real
    ensures n % 2 == 0
  {
    if n == 1 {
      assert false;
    }
    var k: nat :| Pow2(k) == n;
  }

  /** A scale of exactly one half is computed and undone without error. */
  lemma {:induction false} HalfInDoubles(w: int)
    requires 1 <= w && 2 * w <= INT32_MAX
    ensures Doubles.div(w as real, (2 * w) as real) == 0.5 && AxisToHost(Doubles, w, 0.5) == 2 * w
  {
    DivTimes(w as real, (2 * w) as real);
    assert w as real / (2 * w) as real == 0.5;
    RoundedHalves(0.5, 1);
    assert w as real / 0.5 == (2 * w) as real;
    RoundedHalves((2 * w) as real, 4 * w);
    assert Trunc((2 * w) as real) == 2 * w;
  }

  /** In doubles, for all sizes with a product of at most 2^50, there is no exception. */
  lemma {:induction false} CycleInDoubles(w: int, l: int)
    requires 1 <= w <= INT32_MAX && 1 <= l <= INT32_MAX && w * l <= 1125899906842624
    ensures var s := Doubles.div(w as real, l as real);
            var round := AxisToGuest(Doubles, AxisToHost(Doubles, w, s), s, false) != w;
            AxisToGuest(Doubles, AxisToHost(Doubles, w, s), s, round) == w <==> AxisToHost(Doubles, w, s) == l || 2 * w < l
  {
    DoublesAccurate();
    NearHalfIff(w, l);
    if l == 2 * w {
      HalfInDoubles(w);
      AxisRoundTrip(Doubles, w, l);
    } else {
      CycleExactIff(Doubles, w, l);
    }
  }

  /** 9 pixels over 7: the double scale, and 9 divided by it, which is just below 7. */
  const Scale9: real := 5790342378047781.0 / 4503599627370496.0
  const Again9: real := 7881299347898367.0 / 1125899906842624.0

  lemma {:induction false} NineOverSeven()
    ensures Doubles.div(9.0, 1.25) == 8106479329266893.0 / 1125899906842624.0 && Doubles.mul(1.25, 7.0) == 8.75
    ensures Doubles.div(9.0, 7.0) == Scale9 && Doubles.div(9.0, Scale9) == Again9
    ensures Doubles.mul(Scale9, 6.0) == 8685513567071672.0 / 1125899906842624.0
  {
    Powers();
    Quotient(9.0, 1.25, 8106479329266893, P50);
    Product(1.25, 7.0, 4925812092436480, P49);
    Quotient(9.0, 7.0, 5790342378047781, P52);
    Quotient(9.0, Scale9, 7881299347898367, P50);
    Product(Scale9, 6.0, 8685513567071672, P50);
  }

  /**
   * The recomputed size can be one short: in doubles a window of 9 pixels at
   * scale 1.25 has the logical size 7, recomputes 6, and its cycle ends at 8,
   * with the rounding flag.
   */
  lemma {:induction false} CycleCanFail(s: Surface)
    requires s.output.None?
    ensures var ctx := Context(Doubles, true, Pair(1.25, 1.25), 1.0);
            var t := TryWindowScale(ctx, s, Size(9, 9));
            && t.hasOwnScale && t.roundX && t.roundY && t.cached == Size(7, 7)
            && GuestToHost(ctx, t, Size(9, 9)) == Size(6, 6)
            && HostToGuest(ctx, t, Size(6, 6)) == Size(8, 8)
  {
    NineOverSeven();
    assert AxisToHost(Doubles, 9, 1.25) == 7;
    assert AxisToGuest(Doubles, 7, 1.25, false) == 8;
    assert AxisToHost(Doubles, 9, Scale9) == 6;
    assert AxisToGuest(Doubles, 6, Scale9, false) == 7;
    assert AxisToGuest(Doubles, 6, Scale9, true) == 8;
  }

  // ----- the code -----

  /** The surface updated in place. */
  class SurfaceScale {
    var hasOwnScale: bool
    var scale: Pair
    var roundX: bool
    var roundY: bool
    var cached: Size
    var output: Option<Pair>

    function View(): Surface
      reads this
    {
      Surface(hasOwnScale, scale, roundX, roundY, cached, output)
    }

    constructor (output: Option<Pair>)
      ensures View() == Surface(false, Pair(0.0, 0.0), false, false, Size(0, 0), output)
    {
      hasOwnScale, scale, roundX, roundY, cached := false, Pair(0.0, 0.0), false, false, Size(0, 0);
      this.output := output;
    }

    /** sl_transform_reset_surface_scale. */
    method Reset()
      modifies this
      ensures View() == ResetScale(old(View()))
    {
      hasOwnScale := false;
      roundX, roundY := false, false;
      scale := Pair(0.0, 0.0);
    }

    /** sl_transform_try_window_scale, with the round trip it is there for. */
    method TryScale(ctx: Context, pixels: Size)
      modifies this
      ensures View() == TryWindowScale(ctx, old(View()), pixels)
      ensures Accurate(ctx.arith) && ctx.useDirectScale && Pixels(pixels) &&
              LogicalSize(ctx, old(View()), pixels).w > 0 && LogicalSize(ctx, old(View()), pixels).h > 0 ==>
                HostToGuest(ctx, View(), LogicalSize(ctx, old(View()), pixels)) == pixels
    {
      if Accurate(ctx.arith) && ctx.useDirectScale && Pixels(pixels) &&
         LogicalSize(ctx, View(), pixels).w > 0 && LogicalSize(ctx, View(), pixels).h > 0 {
        WindowScaleRoundTrip(ctx, View(), pixels);
      }
      if !ctx.useDirectScale {
        return;
      }
      Reset();
      var logical := GuestToHost(ctx, View(), pixels);
      var reverse := HostToGuest(ctx, View(), logical);
      if (reverse.w != pixels.w || reverse.h != pixels.h) && logical.w > 0 && logical.h > 0 {
        hasOwnScale := true;
        scale := Pair(ctx.arith.div(pixels.w as real, logical.w as real),
                      ctx.arith.div(pixels.h as real, logical.h as real));
        cached := logical;
        reverse := GuestToHost(ctx, View(), pixels);
        reverse := HostToGuest(ctx, View(), reverse);
        if reverse.w != pixels.w {
          roundX := true;
        }
        if reverse.h != pixels.h {
          roundY := true;
        }
      }
    }
  }
}

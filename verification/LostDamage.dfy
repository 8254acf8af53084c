/**
 * Damage requests that end beyond int32, or do after scaling, are lost, and the
 * damage of a new buffer reaches only so far. Exactly when a client that relies
 * on one request still gets its frames shown.
 */
module LostDamage {
  import opened Machine
  import opened ShmFormats
  import opened PixelCopy
  import opened Damage
  import opened SurfaceModel
  import opened SurfaceRuns

  // ----- the protocol's view -----

  predicate Holds(rects: seq<Box>, n: nat, x: nat, y: nat) {
    exists i :: 0 <= i < |rects| && InBox(Scaled(rects[i], n), x, y)
  }

  /** The client asked for damage at buffer pixel (x, y), whatever the proxy made of it. */
  predicate Asked(c: Client, scale: nat, x: nat, y: nat) {
    Holds(c.surfaceRects, scale, x, y) || Holds(c.bufferRects, 1, x, y)
  }

  /** What wl_surface asks of the client: it asked for damage at every pixel that is new or different. */
  ghost predicate Sincere(c: Client, scale: nat, e: Event) {
    e.Commit? && c.pending.Some? && c.frame.Some? ==>
      var g := Observe(c, e).frame.value;
      FrameFits(c.frame.value) && FrameFits(g) &&
      forall x: nat, y: nat :: x < g.width && y < g.height ==>
        SamePixelIn(c.frame.value, g, x, y) || Asked(c, scale, x, y)
  }

  ghost predicate SincereRun(scale: nat, es: seq<Event>)
    requires Legal(scale, es)
    decreases |es|
  {
    es != [] ==>
      && SincereRun(scale, es[..|es| - 1])
      && Sincere(Run(scale, es[..|es| - 1]).client, scale, es[|es| - 1])
  }

  // ----- runs that rely on one request -----

  predicate IsRequest(e: Event) {
    (e.DamageSurface? || e.DamageBuffer?) && IsInt32(e.x) && IsInt32(e.y) && IsInt32(e.w) && IsInt32(e.h)
  }

  function Rect(e: Event): Box
    requires IsRequest(e)
  {
    RequestBox(e.x, e.y, e.w, e.h)
  }

  /** Surface damage is scaled at the commit, buffer damage is not. */
  function Factor(e: Event, scale: nat): nat {
    if e.DamageSurface? then scale else 1
  }

  /** The only damage is the request, and every buffer attached is w by h. */
  predicate Uses(f: Event, e: Event, w: nat, h: nat) {
    && (f.DamageSurface? || f.DamageBuffer? ==> f == e)
    && (f.Attach? && f.buffer.Some? ==> f.buffer.value.width == w && f.buffer.value.height == h)
  }

  predicate RunUses(es: seq<Event>, e: Event, w: nat, h: nat) {
    forall i :: 0 <= i < |es| ==> Uses(es[i], e, w, h)
  }

  ghost predicate Shows(s: State, p: Contents, src: seq<byte>, w: nat, h: nat) {
    forall x: nat, y: nat :: x < w && y < h ==> ShowsAt(s, p, src, x, y)
  }

  /** If the run ends in a commit with contents, the host is shown them. */
  ghost predicate EndsShown(scale: nat, es: seq<Event>, w: nat, h: nat)
    requires Legal(scale, es)
  {
    es != [] && es[|es| - 1].Commit? && Run(scale, es[..|es| - 1]).client.pending.Some? ==>
      Shows(Run(scale, es).surface, Run(scale, es[..|es| - 1]).client.pending.value, es[|es| - 1].mem, w, h)
  }

  /** A sincere client may rely on the request: every commit of every run shows its contents. */
  ghost predicate Reliable(scale: nat, e: Event, w: nat, h: nat) {
    forall es: seq<Event> ::
      Legal(scale, es) && SincereRun(scale, es) && RunUses(es, e, w, h) ==> EndsShown(scale, es, w, h)
  }

  // ----- requests that count, or miss the frame -----

  /** The request is kept in full, or has no pixel of the frame. */
  predicate Harmless(scale: nat, e: Event, w: nat, h: nat)
    requires IsRequest(e)
  {
    Counts(Rect(e), Factor(e, scale)) || !Overlaps(Scaled(Rect(e), Factor(e, scale)), w, h)
  }

  /** The damage of a new buffer reaches every pixel of a w by h frame. */
  predicate AllInReach(w: nat, h: nat, scale: nat) {
    w == 0 || h == 0 || InReach(w - 1, h - 1, scale)
  }

  predicate OnlyRects(rects: seq<Box>, r: Box) {
    forall i :: 0 <= i < |rects| ==> rects[i] == r
  }

  ghost predicate ClientUses(c: Client, e: Event, w: nat, h: nat)
    requires IsRequest(e)
  {
    && OnlyRects(c.surfaceRects, Rect(e)) && OnlyRects(c.bufferRects, Rect(e))
    && (e.DamageSurface? ==> c.bufferRects == []) && (e.DamageBuffer? ==> c.surfaceRects == [])
    && (c.pending.Some? ==> c.pending.value.width == w && c.pending.value.height == h)
  }

  lemma {:induction false} RunClientUses(scale: nat, es: seq<Event>, e: Event, w: nat, h: nat)
    requires IsRequest(e) && Legal(scale, es) && RunUses(es, e, w, h)
    ensures ClientUses(Run(scale, es).client, e, w, h)
    decreases |es|
  {
    if es != [] {
      RunClientUses(scale, es[..|es| - 1], e, w, h);
      assert Uses(es[|es| - 1], e, w, h);
    }
  }

  /** A pixel asked for is announced, when the request is harmless. */
  lemma {:induction false} AskedIsAnnounced(c: Client, scale: nat, e: Event, w: nat, h: nat, x: nat, y: nat)
    requires IsRequest(e) && ClientUses(c, e, w, h) && Harmless(scale, e, w, h)
    requires x < w && y < h && Asked(c, scale, x, y)
    ensures Announced(c, scale, x, y)
  {
    var rects, n := if e.DamageSurface? then c.surfaceRects else c.bufferRects, Factor(e, scale);
    var i :| 0 <= i < |rects| && InBox(Scaled(rects[i], n), x, y);
    assert rects[i] == Rect(e);
    assert Counts(rects[i], n);
    assert Covered(rects, n, x, y);
  }

  lemma {:induction false} SincereIsHonest(scale: nat, es: seq<Event>, e: Event, w: nat, h: nat)
    requires IsRequest(e) && Legal(scale, es) && SincereRun(scale, es) && RunUses(es, e, w, h) && Harmless(scale, e, w, h)
    ensures HonestRun(scale, es)
    decreases |es|
  {
    if es != [] {
      var front := es[..|es| - 1];
      SincereIsHonest(scale, front, e, w, h);
      RunClientUses(scale, front, e, w, h);
      var c := Run(scale, front).client;
      forall x: nat, y: nat | x < w && y < h && Asked(c, scale, x, y)
        ensures Announced(c, scale, x, y)
      {
        AskedIsAnnounced(c, scale, e, w, h, x, y);
      }
    }
  }

  lemma {:induction false} HonestShows(scale: nat, es: seq<Event>, e: Event, w: nat, h: nat)
    requires es != [] && es[|es| - 1].Commit? && Legal(scale, es) && Legal(scale, es[..|es| - 1]) && HonestRun(scale, es)
    requires IsRequest(e) && RunUses(es[..|es| - 1], e, w, h) && Run(scale, es[..|es| - 1]).client.pending.Some?
    requires AllInReach(w, h, scale)
    ensures Shows(Run(scale, es).surface, Run(scale, es[..|es| - 1]).client.pending.value, es[|es| - 1].mem, w, h)
  {
    var front, src := es[..|es| - 1], es[|es| - 1].mem;
    assert front + [Commit(src)] == es;
    RunClientUses(scale, front, e, w, h);
    forall x: nat, y: nat | x < w && y < h
      ensures ShowsAt(Run(scale, es).surface, Run(scale, front).client.pending.value, src, x, y)
    {
      CommitShowsFrame(scale, front, src, x, y);
    }
  }

  lemma {:induction false} HonestEndsShown(scale: nat, es: seq<Event>, e: Event, w: nat, h: nat)
    requires Legal(scale, es) && HonestRun(scale, es) && RunUses(es, e, w, h) && IsRequest(e) && AllInReach(w, h, scale)
    ensures EndsShown(scale, es, w, h)
  {
    if es != [] && es[|es| - 1].Commit? && Run(scale, es[..|es| - 1]).client.pending.Some? {
      HonestShows(scale, es, e, w, h);
    }
  }

  lemma {:induction false} HarmlessIsReliable(scale: nat, e: Event, w: nat, h: nat)
    requires IsRequest(e) && Harmless(scale, e, w, h) && AllInReach(w, h, scale)
    ensures Reliable(scale, e, w, h)
  {
    forall es: seq<Event> | Legal(scale, es) && SincereRun(scale, es) && RunUses(es, e, w, h)
      ensures EndsShown(scale, es, w, h)
    {
      SincereIsHonest(scale, es, e, w, h);
      HonestEndsShown(scale, es, e, w, h);
    }
  }

  // ----- a request that is lost -----

  /** A request that does not count makes no pixel stale. */
  lemma {:induction false} NothingTouched(e: Event, n: nat, w: nat, h: nat, x: nat, y: nat)
    requires IsRequest(e) && n >= 1 && GoodBox(Rect(e)) && !Counts(Rect(e), n)
    ensures !Touched(UnionRect([], e.x, e.y, e.w, e.h), n, w, h, x, y)
  {
    var r := Rect(e);
    HighEdgeExact(r.x2, n, w);
    HighEdgeExact(r.y2, n, h);
  }

  function Bytes(n: nat, v: byte): (r: seq<byte>)
    ensures |r| == n && forall i :: 0 <= i < n ==> r[i] == v
  {
    seq(n, (i: nat) => v)
  }

  function Plain(w: nat): Layout {
    Layout(0, w * 4, 4)
  }

  /** A client buffer of the frame's size, and an output buffer for it. */
  function Source(w: nat, h: nat): ClientBuffer {
    ClientBuffer(w, h, ARGB8888, Some(Plain(w)))
  }

  function Waiting(w: nat, h: nat): Contents {
    Contents(w, h, ARGB8888, Plain(w))
  }

  lemma {:induction false} PlainFits(w: nat, h: nat)
    ensures Fits(Plain(w), w, h, h * (w * 4))
  {
  }

  function Before(w: nat, h: nat): seq<byte> {
    Bytes(h * (w * 4), 0)
  }

  /** The first frame with pixel (x, y) painted. */
  function Painted(w: nat, h: nat, x: nat, y: nat): (m: seq<byte>)
    requires x < w && y < h
    ensures |m| == h * (w * 4)
  {
    PlainFits(w, h);
    CopyBox(Before(w, h), Plain(w), Bytes(h * (w * 4), 255), Plain(w), w, h, Box(x, y, x + 1, y + 1))
  }

  lemma {:induction false} PaintedPixels(w: nat, h: nat, x: nat, y: nat, px: nat, py: nat)
    requires x < w && y < h && px < w && py < h
    ensures Fits(Plain(w), w, h, |Before(w, h)|) && Fits(Plain(w), w, h, |Painted(w, h, x, y)|)
    ensures Pixel(Painted(w, h, x, y), Plain(w), w, h, px, py) == Pixel(Before(w, h), Plain(w), w, h, px, py)
       <==> (px, py) != (x, y)
  {
    PlainFits(w, h);
    var ones := Bytes(h * (w * 4), 255);
    CopyBoxPixel(Before(w, h), Plain(w), ones, Plain(w), w, h, Box(x, y, x + 1, y + 1), px, py);
    PixelInside(Plain(w), w, h, |ones|, px, py);
    assert Pixel(ones, Plain(w), w, h, px, py)[0] == 255;
    assert Pixel(Before(w, h), Plain(w), w, h, px, py)[0] == 0;
  }

  // ----- the run that fails -----

  /** One more event of a sincere run that relies on the request. */
  ghost predicate Goes(scale: nat, es: seq<Event>, e: Event, w: nat, h: nat, r: System) {
    Legal(scale, es) && SincereRun(scale, es) && RunUses(es, e, w, h) && Run(scale, es) == r
  }

  lemma {:induction false} SincereOn(scale: nat, es: seq<Event>, f: Event)
    requires Legal(scale, es) && SincereRun(scale, es) && Legal(scale, es + [f])
    requires Sincere(Run(scale, es).client, scale, f)
    ensures SincereRun(scale, es + [f])
  {
    assert (es + [f])[..|es|] == es;
  }

  lemma {:induction false} GoesOn(scale: nat, es: seq<Event>, e: Event, w: nat, h: nat, r: System, f: Event)
    requires Goes(scale, es, e, w, h, r) && WellFormed(r.surface)
    requires Enabled(r.surface, f) && Sincere(r.client, scale, f) && Uses(f, e, w, h)
    ensures Goes(scale, es + [f], e, w, h, System(Step(r.surface, f), Observe(r.client, f)))
  {
    RunOn(scale, es, f);
    SincereOn(scale, es, f);
  }

  function AttachSource(w: nat, h: nat): Event {
    Attach(Some(Source(w, h)), Allocation(Plain(w), Before(w, h)))
  }

  /** The surface with one output buffer, which is current; contents wait if `waiting`. */
  function OneReleased(scale: nat, b: Buffer, w: nat, h: nat, waiting: bool): State {
    State(scale, [b], [], if waiting then Some(Waiting(w, h)) else None, Some(0), 1)
  }

  predicate Output(b: Buffer, w: nat, h: nat) {
    b.id == 0 && WellFormedBuffer(b) && Matches(b, w, h, ARGB8888)
  }

  lemma {:induction false} OneReleasedIsWellFormed(scale: nat, b: Buffer, w: nat, h: nat, waiting: bool)
    requires scale >= 1 && Output(b, w, h)
    ensures WellFormed(OneReleased(scale, b, w, h, waiting))
  {
    IndexOfUnique([b], 0);
  }

  lemma {:induction false} CommitOnly(scale: nat, b: Buffer, w: nat, h: nat, src: seq<byte>)
    requires scale >= 1 && Output(b, w, h) && Fits(Plain(w), w, h, |src|) && b.layout.bpp == 4
    ensures var s := OneReleased(scale, b, w, h, true);
            && WellFormed(s) && Enabled(s, Commit(src))
            && Step(s, Commit(src)) == State(scale, [], [Refresh(b, Waiting(w, h), scale, src)], None, Some(0), 1)
  {
    OneReleasedIsWellFormed(scale, b, w, h, true);
    IndexOfUnique([b], 0);
    assert Remove([b], 0) == [];
  }

  lemma {:induction false} ReleaseOnly(scale: nat, b: Buffer, w: nat, h: nat)
    requires scale >= 1 && Output(b, w, h)
    ensures var s := State(scale, [], [b], None, Some(0), 1);
            WellFormed(s) && Enabled(s, Release(0)) && Step(s, Release(0)) == OneReleased(scale, b, w, h, false)
  {
    IndexOfUnique([b], 0);
    assert Remove([b], 0) == [];
  }

  function First(w: nat, h: nat): Buffer {
    NewBuffer(0, Source(w, h), Allocation(Plain(w), Before(w, h)))
  }

  /** The output buffer after the first commit: no damage, and the pixels of the first frame. */
  predicate Clean(b: Buffer, w: nat, h: nat) {
    && Output(b, w, h) && b.layout == Plain(w) && b.surfaceDamage == [] && b.bufferDamage == []
    && Fits(Plain(w), w, h, |Before(w, h)|)
    && forall px: nat, py: nat :: px < w && py < h ==>
         BufferPixel(b, px, py) == Pixel(Before(w, h), Plain(w), w, h, px, py)
  }

  lemma {:induction false} FirstCommitClean(scale: nat, w: nat, h: nat)
    requires scale >= 1
    ensures Output(First(w, h), w, h) && Fits(Plain(w), w, h, |Before(w, h)|)
    ensures Clean(Refresh(First(w, h), Waiting(w, h), scale, Before(w, h)), w, h)
  {
    PlainFits(w, h);
    var b := Refresh(First(w, h), Waiting(w, h), scale, Before(w, h));
    forall px: nat, py: nat | px < w && py < h
      ensures BufferPixel(b, px, py) == Pixel(Before(w, h), Plain(w), w, h, px, py)
    {
      RefreshPixel(First(w, h), Waiting(w, h), scale, Before(w, h), px, py);
    }
  }

  function FirstFrame(w: nat, h: nat): Client {
    Client(Some(Frame(w, h, Plain(w), Before(w, h))), [], [], None)
  }

  /** The first attach allocates the output buffer. */
  lemma {:induction false} FirstAttach(scale: nat, w: nat, h: nat)
    requires scale >= 1
    ensures var s := Initial(scale);
            && WellFormed(s) && Enabled(s, AttachSource(w, h))
            && Step(s, AttachSource(w, h)) == OneReleased(scale, First(w, h), w, h, true)
  {
    PlainFits(w, h);
  }

  /** Attach, commit and release: one clean released buffer. */
  lemma {:induction false} Prepare(scale: nat, e: Event, w: nat, h: nat) returns (es: seq<Event>, b: Buffer)
    requires scale >= 1
    ensures Clean(b, w, h)
    ensures Goes(scale, es, e, w, h, System(OneReleased(scale, b, w, h, false), FirstFrame(w, h)))
  {
    FirstCommitClean(scale, w, h);
    b := Refresh(First(w, h), Waiting(w, h), scale, Before(w, h));
    FirstAttach(scale, w, h);
    GoesOn(scale, [], e, w, h, System(Initial(scale), NoFrame), AttachSource(w, h));
    es := [] + [AttachSource(w, h)];
    var c := NoFrame.(pending := Some(Waiting(w, h)));
    CommitOnly(scale, First(w, h), w, h, Before(w, h));
    GoesOn(scale, es, e, w, h, System(OneReleased(scale, First(w, h), w, h, true), c), Commit(Before(w, h)));
    es := es + [Commit(Before(w, h))];
    ReleaseOnly(scale, b, w, h);
    GoesOn(scale, es, e, w, h, System(State(scale, [], [b], None, Some(0), 1), FirstFrame(w, h)), Release(0));
    es := es + [Release(0)];
  }

  /** The request and a new attach: the buffer is current again, with whatever damage the request left. */
  lemma {:induction false} AskAndAttach(scale: nat, es: seq<Event>, e: Event, w: nat, h: nat, b: Buffer)
    returns (more: seq<Event>)
    requires scale >= 1 && IsRequest(e) && Clean(b, w, h)
    requires Goes(scale, es, e, w, h, System(OneReleased(scale, b, w, h, false), FirstFrame(w, h)))
    ensures Output(AddDamage(b, e), w, h)
    ensures Goes(scale, more, e, w, h,
                 System(OneReleased(scale, AddDamage(b, e), w, h, true),
                        Observe(FirstFrame(w, h), e).(pending := Some(Waiting(w, h)))))
  {
    var r := System(OneReleased(scale, b, w, h, false), FirstFrame(w, h));
    OneReleasedIsWellFormed(scale, b, w, h, false);
    GoesOn(scale, es, e, w, h, r, e);
    var b' := AddDamage(b, e);
    assert DamageAll([b], e) == [b'] && DamageAll([], e) == [];
    var r' := System(OneReleased(scale, b', w, h, false), Observe(FirstFrame(w, h), e));
    OneReleasedIsWellFormed(scale, b', w, h, false);
    PlainFits(w, h);
    GoesOn(scale, es + [e], e, w, h, r', AttachSource(w, h));
    more := es + [e] + [AttachSource(w, h)];
  }

  /** A lost request leaves the painted pixel out of the next frame shown. */
  lemma {:induction false} LostIsUnreliable(scale: nat, e: Event, w: nat, h: nat)
    requires scale >= 1 && IsRequest(e) && !Harmless(scale, e, w, h)
    ensures !Reliable(scale, e, w, h)
  {
    var n, r := Factor(e, scale), Rect(e);
    var x: nat, y: nat := Max(0, r.x1 * n), Max(0, r.y1 * n);
    assert InBox(Scaled(r, n), x, y) && x < w && y < h;
    assert GoodBox(r) by {
      if r.x2 <= r.x1 { MulMonoInt(r.x2, r.x1, n); }
      if r.y2 <= r.y1 { MulMonoInt(r.y2, r.y1, n); }
    }
    var es, b := Prepare(scale, e, w, h);
    es := AskAndAttach(scale, es, e, w, h, b);
    Unshown(scale, es, e, w, h, b, x, y);
  }

  /** A buffer that is not stale at the painted pixel keeps the one of the first frame. */
  lemma {:induction false} KeepsOldPixel(scale: nat, b: Buffer, w: nat, h: nat, x: nat, y: nat)
    requires Output(b, w, h) && b.layout == Plain(w) && x < w && y < h && !Stale(b, scale, x, y)
    requires Fits(Plain(w), w, h, |Before(w, h)|) && BufferPixel(b, x, y) == Pixel(Before(w, h), Plain(w), w, h, x, y)
    ensures Fits(Plain(w), w, h, |Painted(w, h, x, y)|)
    ensures var src := Painted(w, h, x, y);
            var t := Refresh(b, Waiting(w, h), scale, src);
            WellFormedBuffer(t) && BufferPixel(t, x, y) != Pixel(src, Plain(w), w, h, x, y)
  {
    PaintedPixels(w, h, x, y, x, y);
    RefreshPixel(b, Waiting(w, h), scale, Painted(w, h, x, y), x, y);
  }

  /** The refreshed buffer keeps the old pixel where the new contents differ. */
  lemma {:induction false} PixelLost(scale: nat, e: Event, w: nat, h: nat, b: Buffer, x: nat, y: nat)
    requires scale >= 1 && IsRequest(e) && Clean(b, w, h) && x < w && y < h
    requires GoodBox(Rect(e)) && !Counts(Rect(e), Factor(e, scale))
    ensures Output(AddDamage(b, e), w, h) && Inside(Plain(w), w, h, |Painted(w, h, x, y)|)
    ensures var src := Painted(w, h, x, y);
            var t := Refresh(AddDamage(b, e), Waiting(w, h), scale, src);
            WellFormedBuffer(t) && BufferPixel(t, x, y) != Pixel(src, Plain(w), w, h, x, y)
  {
    NothingTouched(e, Factor(e, scale), w, h, x, y);
    assert BufferPixel(AddDamage(b, e), x, y) == BufferPixel(b, x, y);
    KeepsOldPixel(scale, AddDamage(b, e), w, h, x, y);
  }

  lemma {:induction false} EndsUnshown(scale: nat, es: seq<Event>, e: Event, w: nat, h: nat, r: System,
                                       src: seq<byte>, x: nat, y: nat)
    requires Goes(scale, es + [Commit(src)], e, w, h, r) && Legal(scale, es) && x < w && y < h
    requires Run(scale, es).client.pending == Some(Waiting(w, h)) && !ShowsAt(r.surface, Waiting(w, h), src, x, y)
    ensures !Reliable(scale, e, w, h)
  {
    var all := es + [Commit(src)];
    assert all[..|all| - 1] == es;
    assert !Shows(r.surface, Waiting(w, h), src, w, h);
    assert !EndsShown(scale, all, w, h);
  }

  /** A run whose next commit leaves pixel (x, y) different from the contents. */
  lemma {:induction false} CommitUnshown(scale: nat, es: seq<Event>, e: Event, w: nat, h: nat, b: Buffer, c: Client,
                                         src: seq<byte>, x: nat, y: nat)
    requires scale >= 1 && Output(b, w, h) && b.layout.bpp == 4 && Fits(Plain(w), w, h, |src|) && x < w && y < h
    requires c.pending == Some(Waiting(w, h)) && Sincere(c, scale, Commit(src))
    requires Goes(scale, es, e, w, h, System(OneReleased(scale, b, w, h, true), c))
    requires var t := Refresh(b, Waiting(w, h), scale, src);
             WellFormedBuffer(t) && BufferPixel(t, x, y) != Pixel(src, Plain(w), w, h, x, y)
    ensures !Reliable(scale, e, w, h)
  {
    CommitOnly(scale, b, w, h, src);
    GoesOn(scale, es, e, w, h, System(OneReleased(scale, b, w, h, true), c), Commit(src));
    var s := State(scale, [], [Refresh(b, Waiting(w, h), scale, src)], None, Some(0), 1);
    assert !ShowsAt(s, Waiting(w, h), src, x, y);
    EndsUnshown(scale, es, e, w, h, System(s, Observe(c, Commit(src))), src, x, y);
  }

  lemma {:induction false} Unshown(scale: nat, es: seq<Event>, e: Event, w: nat, h: nat, b: Buffer, x: nat, y: nat)
    requires scale >= 1 && IsRequest(e) && Clean(b, w, h) && x < w && y < h
    requires GoodBox(Rect(e)) && !Counts(Rect(e), Factor(e, scale)) && InBox(Scaled(Rect(e), Factor(e, scale)), x, y)
    requires Goes(scale, es, e, w, h,
                  System(OneReleased(scale, AddDamage(b, e), w, h, true),
                         Observe(FirstFrame(w, h), e).(pending := Some(Waiting(w, h)))))
    ensures !Reliable(scale, e, w, h)
  {
    var src := Painted(w, h, x, y);
    PixelLost(scale, e, w, h, b, x, y);
    PaintedPixels(w, h, x, y, x, y);
    RepaintIsSincere(scale, e, w, h, x, y);
    CommitUnshown(scale, es, e, w, h, AddDamage(b, e), Observe(FirstFrame(w, h), e).(pending := Some(Waiting(w, h))), src, x, y);
  }

  lemma {:induction false} RepaintIsSincere(scale: nat, e: Event, w: nat, h: nat, x: nat, y: nat)
    requires IsRequest(e) && x < w && y < h && InBox(Scaled(Rect(e), Factor(e, scale)), x, y)
    ensures Sincere(Observe(FirstFrame(w, h), e).(pending := Some(Waiting(w, h))), scale, Commit(Painted(w, h, x, y)))
  {
    var c := Observe(FirstFrame(w, h), e).(pending := Some(Waiting(w, h)));
    var g := Frame(w, h, Plain(w), Painted(w, h, x, y));
    PaintedPixels(w, h, x, y, x, y);
    forall px: nat, py: nat | px < w && py < h
      ensures SamePixelIn(c.frame.value, g, px, py) || Asked(c, scale, px, py)
    {
      PaintedPixels(w, h, x, y, px, py);
      if (px, py) == (x, y) {
        var rects := if e.DamageSurface? then c.surfaceRects else c.bufferRects;
        assert rects[0] == Rect(e) && InBox(Scaled(rects[0], Factor(e, scale)), x, y);
      }
    }
  }

  // ----- a frame beyond reach -----

  /** A pixel beyond reach is not touched by the damage of a new buffer. */
  lemma {:induction false} PixelMissed(scale: nat, w: nat, h: nat, x: nat, y: nat)
    requires scale >= 1 && x < w && y < h && !InReach(x, y, scale)
    ensures !Stale(First(w, h), scale, x, y)
  {
    FullRegionCovers(scale, w, h, x, y);
    FullRegionCovers(1, w, h, x, y);
  }

  lemma {:induction false} FirstIsOutput(w: nat, h: nat)
    ensures Output(First(w, h), w, h) && Fits(Plain(w), w, h, |Before(w, h)|)
  {
    PlainFits(w, h);
  }

  /** The first commit of such a frame does not show the pixel. */
  lemma {:induction false} BeyondReach(scale: nat, e: Event, w: nat, h: nat, x: nat, y: nat)
    requires scale >= 1 && x < w && y < h && !InReach(x, y, scale)
    ensures !Reliable(scale, e, w, h)
  {
    PixelMissed(scale, w, h, x, y);
    FirstIsOutput(w, h);
    KeepsOldPixel(scale, First(w, h), w, h, x, y);
    FirstAttach(scale, w, h);
    GoesOn(scale, [], e, w, h, System(Initial(scale), NoFrame), AttachSource(w, h));
    CommitUnshown(scale, [] + [AttachSource(w, h)], e, w, h, First(w, h), NoFrame.(pending := Some(Waiting(w, h))),
                  Painted(w, h, x, y), x, y);
  }

  /**
   * A sincere client may rely on a damage request, in every run with frames of
   * the given size, if and only if the damage of a new buffer reaches all of
   * the frame, and the request and its scaled edges end within int32 or it has
   * no pixel of the frame.
   */
  lemma {:induction false} ReliableIff(scale: nat, e: Event, w: nat, h: nat)
    requires scale >= 1 && IsRequest(e)
    ensures Reliable(scale, e, w, h) <==>
              && AllInReach(w, h, scale)
              && (Counts(Rect(e), Factor(e, scale)) || !Overlaps(Scaled(Rect(e), Factor(e, scale)), w, h))
  {
    if !AllInReach(w, h, scale) {
      BeyondReach(scale, e, w, h, w - 1, h - 1);
    } else if Harmless(scale, e, w, h) {
      HarmlessIsReliable(scale, e, w, h);
    } else {
      LostIsUnreliable(scale, e, w, h);
    }
  }

  /** Damage of the whole int32 range at buffer scale 2 is lost, for frames of any size. */
  lemma {:induction false} WholeRangeLost(w: nat, h: nat)
    requires w > 0 && h > 0
    ensures !Reliable(2, DamageSurface(0, 0, INT32_MAX, INT32_MAX), w, h)
    ensures Reliable(1, DamageSurface(0, 0, INT32_MAX, INT32_MAX), w, h) <==> AllInReach(w, h, 1)
  {
    var e := DamageSurface(0, 0, INT32_MAX, INT32_MAX);
    ReliableIff(2, e, w, h);
    ReliableIff(1, e, w, h);
  }
}

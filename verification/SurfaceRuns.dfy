/**
 * Whole runs of a surface: what the client shows, what it damages, and the
 * agreement of every output buffer with the last committed frame.
 */
module SurfaceRuns {
  import opened Machine
  import opened ShmFormats
  import opened PixelCopy
  import opened Damage
  import opened SurfaceModel

  /** A frame the client committed: the bytes of its mapping at the commit. */
  datatype Frame = Frame(width: nat, height: nat, layout: Layout, mem: seq<byte>)

  /**
   * What the protocol says about the client, without any output buffer: the
   * last committed frame, the rectangles damaged since then and the contents
   * waiting for the next commit.
   */
  datatype Client = Client(frame: Option<Frame>, surfaceRects: seq<Box>, bufferRects: seq<Box>, pending: Option<Contents>)

  predicate FrameFits(f: Frame) {
    Inside(f.layout, f.width, f.height, |f.mem|)
  }

  function FramePixel(f: Frame, x: nat, y: nat): seq<byte>
    requires FrameFits(f) && x < f.width && y < f.height
  {
    Pixel(f.mem, f.layout, f.width, f.height, x, y)
  }

  function BufferPixel(b: Buffer, x: nat, y: nat): seq<byte>
    requires WellFormedBuffer(b) && x < b.width && y < b.height
  {
    Pixel(b.mem, b.layout, b.width, b.height, x, y)
  }

  /** The rectangle of a damage request, without any machine arithmetic. */
  function RequestBox(x: int, y: int, w: int, h: int): Box {
    Box(x, y, x + w, y + h)
  }

  function Observe(c: Client, e: Event): Client {
    match e
    case Attach(buffer, _) =>
      c.(pending := if buffer.Some? && buffer.value.layout.Some?
                    then Some(Contents(buffer.value.width, buffer.value.height, buffer.value.format, buffer.value.layout.value))
                    else None)
    case DamageSurface(x, y, w, h) => c.(surfaceRects := c.surfaceRects + [RequestBox(x, y, w, h)])
    case DamageBuffer(x, y, w, h) => c.(bufferRects := c.bufferRects + [RequestBox(x, y, w, h)])
    case Commit(mem) =>
      if c.pending.Some? then
        Client(Some(Frame(c.pending.value.width, c.pending.value.height, c.pending.value.layout, mem)), [], [], None)
      else c
    case Release(_) => c
  }

  /**
   * A damage rectangle that the proxy honours: it ends within int32, also after
   * scaling. Any other rectangle is lost, so it does not count as damage.
   */
  predicate Counts(r: Box, n: nat) {
    r.x2 <= INT32_MAX && r.y2 <= INT32_MAX && EdgesFit(r, n)
  }

  /** Some rectangle that counts holds buffer pixel (x, y). */
  predicate Covered(rects: seq<Box>, n: nat, x: nat, y: nat) {
    exists i :: 0 <= i < |rects| && Counts(rects[i], n) && InBox(Scaled(rects[i], n), x, y)
  }

  /** The client damaged buffer pixel (x, y) since its last commit, by a rectangle that counts. */
  predicate Announced(c: Client, scale: nat, x: nat, y: nat) {
    Covered(c.surfaceRects, scale, x, y) || Covered(c.bufferRects, 1, x, y)
  }

  /** The pixel is the same in both frames. */
  predicate SamePixelIn(f: Frame, g: Frame, x: nat, y: nat)
    requires FrameFits(f) && FrameFits(g) && x < g.width && y < g.height
  {
    x < f.width && y < f.height && FramePixel(f, x, y) == FramePixel(g, x, y)
  }

  /**
   * The client's side of wl_surface.damage: by the next commit it has damaged
   * every pixel that is new or different. It may send any other damage.
   */
  ghost predicate Honest(c: Client, scale: nat, e: Event) {
    e.Commit? && c.pending.Some? && c.frame.Some? ==>
      var g := Observe(c, e).frame.value;
      FrameFits(c.frame.value) && FrameFits(g) &&
      forall x: nat, y: nat :: x < g.width && y < g.height ==>
        SamePixelIn(c.frame.value, g, x, y) || Announced(c, scale, x, y)
  }

  // ----- the invariant -----

  /** The next commit into this buffer will copy pixel (x, y). */
  predicate Stale(b: Buffer, scale: nat, x: nat, y: nat) {
    || Touched(b.surfaceDamage, scale, b.width, b.height, x, y)
    || Touched(b.bufferDamage, 1, b.width, b.height, x, y)
  }

  /** The surface damage or the buffer damage of a new buffer covers pixel (x, y). */
  predicate InReach(x: nat, y: nat, scale: nat) {
    (x < Reach(scale) && y < Reach(scale)) || (x < Reach(1) && y < Reach(1))
  }

  /** A pixel of the buffer that a new buffer's damage reaches. */
  predicate Reached(b: Buffer, scale: nat, x: nat, y: nat) {
    x < b.width && y < b.height && InReach(x, y, scale)
  }

  /** The buffer shows the frame at every shared pixel outside its damage. */
  ghost predicate Agrees(b: Buffer, scale: nat, f: Frame)
    requires WellFormedBuffer(b) && FrameFits(f)
  {
    forall x: nat, y: nat :: Reached(b, scale, x, y) && x < f.width && y < f.height && !Stale(b, scale, x, y) ==>
      BufferPixel(b, x, y) == FramePixel(f, x, y)
  }

  /** A buffer is up to date with the last frame outside its damage, and its damage covers every announced pixel. */
  ghost predicate Tracks(b: Buffer, scale: nat, c: Client)
    requires WellFormedBuffer(b)
    requires c.frame.Some? ==> FrameFits(c.frame.value)
  {
    && (forall x: nat, y: nat :: Reached(b, scale, x, y) && Announced(c, scale, x, y) ==> Stale(b, scale, x, y))
    && (c.frame.Some? ==> Agrees(b, scale, c.frame.value))
    && (c.frame.None? ==> forall x: nat, y: nat :: Reached(b, scale, x, y) ==> Stale(b, scale, x, y))
  }

  ghost predicate Invariant(s: State, c: Client) {
    && WellFormed(s)
    && s.contents == c.pending
    && (c.frame.Some? ==> FrameFits(c.frame.value))
    && (forall b :: b in s.released ==> Tracks(b, s.scale, c))
    && (forall b :: b in s.busy ==> Tracks(b, s.scale, c))
  }

  // ----- attach -----

  lemma {:induction false} NewBufferTracks(b: Buffer, scale: nat, c: Client)
    requires WellFormedBuffer(b) && b.surfaceDamage == FullRegion && b.bufferDamage == FullRegion
    requires scale >= 1
    requires c.frame.Some? ==> FrameFits(c.frame.value)
    ensures Tracks(b, scale, c)
  {
    forall x: nat, y: nat | Reached(b, scale, x, y)
      ensures Stale(b, scale, x, y)
    {
      FullRegionCovers(scale, b.width, b.height, x, y);
      FullRegionCovers(1, b.width, b.height, x, y);
    }
  }

  lemma {:induction false} AttachKeeps(s: State, c: Client, buffer: Option<ClientBuffer>, alloc: Allocation)
    requires Invariant(s, c) && Enabled(s, Attach(buffer, alloc))
    ensures Invariant(Step(s, Attach(buffer, alloc)), Observe(c, Attach(buffer, alloc)))
  {
    var e := Attach(buffer, alloc);
    var t, d := Step(s, e), Observe(c, e);
    StepWellFormed(s, e);
    if buffer.Some? && buffer.value.layout.Some? {
      var k := DropMismatchedSuffix(s.released, buffer.value.width, buffer.value.height, buffer.value.format);
    }
    forall b | b in t.released
      ensures Tracks(b, s.scale, d)
    {
      if b in s.released {
        SameFrameTracks(b, s.scale, c, d);
      } else {
        NewBufferTracks(b, s.scale, d);
      }
    }
    forall b | b in t.busy
      ensures Tracks(b, s.scale, d)
    {
      SameFrameTracks(b, s.scale, c, d);
    }
  }

  lemma {:induction false} SameFrameTracks(b: Buffer, scale: nat, c: Client, d: Client)
    requires WellFormedBuffer(b) && (c.frame.Some? ==> FrameFits(c.frame.value))
    requires c.frame == d.frame && c.surfaceRects == d.surfaceRects && c.bufferRects == d.bufferRects
    requires Tracks(b, scale, c)
    ensures Tracks(b, scale, d)
  {
    forall x: nat, y: nat | Announced(d, scale, x, y)
      ensures Announced(c, scale, x, y)
    {
    }
  }

  // ----- damage -----

  lemma {:induction false} UnionKeeps(region: Region, x: int, y: int, w: int, h: int, n: nat, bw: nat, bh: nat, px: nat, py: nat)
    requires Touched(region, n, bw, bh, px, py)
    ensures Touched(UnionRect(region, x, y, w, h), n, bw, bh, px, py)
  {
    var i :| 0 <= i < |region| && Touches(region[i], n, bw, bh, px, py);
    assert UnionRect(region, x, y, w, h)[i] == region[i];
  }

  /** A rectangle that ends in range is added to the region as it was asked for. */
  lemma {:induction false} UnionCovers(region: Region, x: int, y: int, w: int, h: int, n: nat, bw: nat, bh: nat, px: nat, py: nat)
    requires IsInt32(x) && IsInt32(y) && n >= 1 && Counts(RequestBox(x, y, w, h), n)
    requires px < bw && py < bh && InBox(Scaled(RequestBox(x, y, w, h), n), px, py)
    ensures Touched(UnionRect(region, x, y, w, h), n, bw, bh, px, py)
  {
    var r := RequestBox(x, y, w, h);
    assert GoodBox(r) by {
      if r.x2 <= r.x1 { MulMonoInt(r.x2, r.x1, n); }
      if r.y2 <= r.y1 { MulMonoInt(r.y2, r.y1, n); }
    }
    assert UnionRect(region, x, y, w, h) == region + [r];
    EnclosingExact(r, n, bw, bh, px, py);
    assert Touches((region + [r])[|region|], n, bw, bh, px, py);
  }

  lemma {:induction false} DamageStale(b: Buffer, scale: nat, c: Client, e: Event, x: nat, y: nat)
    requires scale >= 1 && (e.DamageSurface? || e.DamageBuffer?)
    requires IsInt32(e.x) && IsInt32(e.y)
    requires x < b.width && y < b.height
    requires Stale(b, scale, x, y) || (Announced(Observe(c, e), scale, x, y) && !Announced(c, scale, x, y))
    ensures Stale(AddDamage(b, e), scale, x, y)
  {
    var r := RequestBox(e.x, e.y, e.w, e.h);
    if Stale(b, scale, x, y) {
      if Touched(b.surfaceDamage, scale, b.width, b.height, x, y) {
        UnionKeeps(b.surfaceDamage, e.x, e.y, e.w, e.h, scale, b.width, b.height, x, y);
      } else {
        UnionKeeps(b.bufferDamage, e.x, e.y, e.w, e.h, 1, b.width, b.height, x, y);
      }
    } else if e.DamageSurface? {
      UnionCovers(b.surfaceDamage, e.x, e.y, e.w, e.h, scale, b.width, b.height, x, y);
    } else {
      UnionCovers(b.bufferDamage, e.x, e.y, e.w, e.h, 1, b.width, b.height, x, y);
    }
  }

  lemma {:induction false} DamageTracks(b: Buffer, scale: nat, c: Client, e: Event)
    requires WellFormedBuffer(b) && (c.frame.Some? ==> FrameFits(c.frame.value))
    requires scale >= 1 && (e.DamageSurface? || e.DamageBuffer?)
    requires IsInt32(e.x) && IsInt32(e.y)
    requires Tracks(b, scale, c)
    ensures Tracks(AddDamage(b, e), scale, Observe(c, e))
  {
    var b', d := AddDamage(b, e), Observe(c, e);
    forall x: nat, y: nat | Reached(b, scale, x, y) && (Announced(d, scale, x, y) || Stale(b, scale, x, y))
      ensures Stale(b', scale, x, y)
    {
      DamageStale(b, scale, c, e, x, y);
    }
    if c.frame.Some? {
      forall x: nat, y: nat | Reached(b, scale, x, y) && x < d.frame.value.width && y < d.frame.value.height && !Stale(b', scale, x, y)
        ensures BufferPixel(b', x, y) == FramePixel(d.frame.value, x, y)
      {
        assert !Stale(b, scale, x, y);
        assert BufferPixel(b, x, y) == FramePixel(c.frame.value, x, y);
      }
    }
  }

  lemma {:induction false} DamageKeeps(s: State, c: Client, e: Event)
    requires Invariant(s, c) && Enabled(s, e)
    requires e.DamageSurface? || e.DamageBuffer?
    ensures Invariant(Step(s, e), Observe(c, e))
  {
    var t, d := Step(s, e), Observe(c, e);
    StepWellFormed(s, e);
    DamageKeepsList(s.released, e);
    DamageKeepsList(s.busy, e);
    forall b | b in t.released
      ensures Tracks(b, s.scale, d)
    {
      var i :| 0 <= i < |s.released| && b == AddDamage(s.released[i], e);
      DamageTracks(s.released[i], s.scale, c, e);
    }
    forall b | b in t.busy
      ensures Tracks(b, s.scale, d)
    {
      var i :| 0 <= i < |s.busy| && b == AddDamage(s.busy[i], e);
      DamageTracks(s.busy[i], s.scale, c, e);
    }
  }

  // ----- commit -----

  /** Refreshing a buffer takes the damaged pixels from the client and keeps the others. */
  lemma {:induction false} RefreshPixel(b: Buffer, p: Contents, scale: nat, src: seq<byte>, x: nat, y: nat)
    requires WellFormedBuffer(b) && Matches(b, p.width, p.height, p.format)
    requires Inside(p.layout, p.width, p.height, |src|) && p.layout.bpp == b.layout.bpp
    requires x < b.width && y < b.height
    ensures WellFormedBuffer(Refresh(b, p, scale, src))
    ensures BufferPixel(Refresh(b, p, scale, src), x, y)
         == if Stale(b, scale, x, y) then Pixel(src, p.layout, p.width, p.height, x, y) else BufferPixel(b, x, y)
  {
    var m1 := CopyRegion(b.mem, b.layout, src, p.layout, b.width, b.height, b.surfaceDamage, scale);
    CopyRegionPixel(b.mem, b.layout, src, p.layout, b.width, b.height, b.surfaceDamage, scale, x, y);
    CopyRegionPixel(m1, b.layout, src, p.layout, b.width, b.height, b.bufferDamage, 1, x, y);
  }

  /** The refreshed buffer equals the client's frame at every pixel within reach. */
  lemma {:induction false} RefreshShows(b: Buffer, scale: nat, c: Client, p: Contents, src: seq<byte>, x: nat, y: nat)
    requires WellFormedBuffer(b) && Matches(b, p.width, p.height, p.format)
    requires Inside(p.layout, p.width, p.height, |src|) && p.layout.bpp == b.layout.bpp
    requires c.pending == Some(p) && (c.frame.Some? ==> FrameFits(c.frame.value))
    requires Tracks(b, scale, c) && Honest(c, scale, Commit(src))
    requires Reached(b, scale, x, y)
    ensures WellFormedBuffer(Refresh(b, p, scale, src))
    ensures BufferPixel(Refresh(b, p, scale, src), x, y) == Pixel(src, p.layout, p.width, p.height, x, y)
  {
    RefreshPixel(b, p, scale, src, x, y);
    if !Stale(b, scale, x, y) {
      var g := Frame(p.width, p.height, p.layout, src);
      assert SamePixelIn(c.frame.value, g, x, y);
    }
  }

  /** A buffer that was not committed into still tracks the new frame. */
  lemma {:induction false} OtherTracks(b: Buffer, scale: nat, c: Client, src: seq<byte>)
    requires WellFormedBuffer(b) && (c.frame.Some? ==> FrameFits(c.frame.value))
    requires c.pending.Some? && Tracks(b, scale, c) && Honest(c, scale, Commit(src))
    requires Inside(c.pending.value.layout, c.pending.value.width, c.pending.value.height, |src|)
    ensures Tracks(b, scale, Observe(c, Commit(src)))
  {
    var d := Observe(c, Commit(src));
    var g := d.frame.value;
    forall x: nat, y: nat | Reached(b, scale, x, y) && x < g.width && y < g.height && !Stale(b, scale, x, y)
      ensures BufferPixel(b, x, y) == FramePixel(g, x, y)
    {
      assert c.frame.Some? && !Announced(c, scale, x, y);
      assert SamePixelIn(c.frame.value, g, x, y);
    }
  }

  lemma {:induction false} CommittedTracks(b: Buffer, scale: nat, c: Client, p: Contents, src: seq<byte>)
    requires WellFormedBuffer(b) && Matches(b, p.width, p.height, p.format)
    requires Inside(p.layout, p.width, p.height, |src|) && p.layout.bpp == b.layout.bpp
    requires c.pending == Some(p) && (c.frame.Some? ==> FrameFits(c.frame.value))
    requires Tracks(b, scale, c) && Honest(c, scale, Commit(src))
    ensures WellFormedBuffer(Refresh(b, p, scale, src))
    ensures Tracks(Refresh(b, p, scale, src), scale, Observe(c, Commit(src)))
  {
    var b', d := Refresh(b, p, scale, src), Observe(c, Commit(src));
    forall x: nat, y: nat | Reached(b', scale, x, y)
      ensures BufferPixel(b', x, y) == FramePixel(d.frame.value, x, y)
    {
      RefreshShows(b, scale, c, p, src, x, y);
    }
  }

  lemma {:induction false} CommitKeeps(s: State, c: Client, src: seq<byte>)
    requires Invariant(s, c) && Enabled(s, Commit(src)) && Honest(c, s.scale, Commit(src))
    ensures Invariant(Step(s, Commit(src)), Observe(c, Commit(src)))
  {
    var t, d := Step(s, Commit(src)), Observe(c, Commit(src));
    StepWellFormed(s, Commit(src));
    if s.contents.Some? {
      var i := IndexOf(s.released, s.current.value);
      RemoveKeeps(s.released, i);
      CommittedTracks(s.released[i], s.scale, c, s.contents.value, src);
      forall b | b in t.released
        ensures Tracks(b, s.scale, d)
      {
        OtherTracks(b, s.scale, c, src);
      }
      forall b | b in t.busy
        ensures Tracks(b, s.scale, d)
      {
        if b in s.busy {
          OtherTracks(b, s.scale, c, src);
        }
      }
    }
  }

  // ----- release, and whole runs -----

  lemma {:induction false} ReleaseKeeps(s: State, c: Client, id: nat)
    requires Invariant(s, c)
    ensures Invariant(Step(s, Release(id)), Observe(c, Release(id)))
  {
    StepWellFormed(s, Release(id));
    ReleaseLists(s, id);
  }

  lemma {:induction false} StepKeeps(s: State, c: Client, e: Event)
    requires Invariant(s, c) && Enabled(s, e) && Honest(c, s.scale, e)
    ensures Invariant(Step(s, e), Observe(c, e))
  {
    match e
    case Attach(buffer, alloc) => AttachKeeps(s, c, buffer, alloc);
    case DamageSurface(_, _, _, _) => DamageKeeps(s, c, e);
    case DamageBuffer(_, _, _, _) => DamageKeeps(s, c, e);
    case Commit(src) => CommitKeeps(s, c, src);
    case Release(id) => ReleaseKeeps(s, c, id);
  }

  datatype System = System(surface: State, client: Client)

  const NoFrame := Client(None, [], [], None)

  /** Every event of the run is well formed where it happens. */
  ghost predicate Legal(scale: nat, es: seq<Event>)
    decreases |es|, 0
  {
    && scale >= 1
    && (es != [] ==>
        && Legal(scale, es[..|es| - 1])
        && Enabled(Run(scale, es[..|es| - 1]).surface, es[|es| - 1]))
  }

  ghost function Run(scale: nat, es: seq<Event>): (r: System)
    requires Legal(scale, es)
    ensures WellFormed(r.surface) && r.surface.scale == scale
    decreases |es|, 1
  {
    if es == [] then System(Initial(scale), NoFrame)
    else
      var r := Run(scale, es[..|es| - 1]);
      StepWellFormed(r.surface, es[|es| - 1]);
      System(Step(r.surface, es[|es| - 1]), Observe(r.client, es[|es| - 1]))
  }

  lemma {:induction false} RunOn(scale: nat, es: seq<Event>, e: Event)
    requires Legal(scale, es) && Enabled(Run(scale, es).surface, e)
    ensures Legal(scale, es + [e])
    ensures Run(scale, es + [e]) == System(Step(Run(scale, es).surface, e), Observe(Run(scale, es).client, e))
  {
    assert (es + [e])[..|es|] == es;
  }

  /** The client is honest at every commit of the run. */
  ghost predicate HonestRun(scale: nat, es: seq<Event>)
    requires Legal(scale, es)
    decreases |es|
  {
    es != [] ==>
      && HonestRun(scale, es[..|es| - 1])
      && Honest(Run(scale, es[..|es| - 1]).client, scale, es[|es| - 1])
  }

  lemma {:induction false} RunKeeps(scale: nat, es: seq<Event>)
    requires Legal(scale, es) && HonestRun(scale, es)
    ensures Invariant(Run(scale, es).surface, Run(scale, es).client)
    decreases |es|
  {
    if es != [] {
      RunKeeps(scale, es[..|es| - 1]);
      var r := Run(scale, es[..|es| - 1]);
      StepKeeps(r.surface, r.client, es[|es| - 1]);
    }
  }

  /**
   * In every run, every live output buffer, released or busy, agrees with the
   * last committed frame at each shared pixel outside its accumulated damage
   * that the damage of a new buffer reaches.
   */
  lemma {:induction false} DamageInvariant(scale: nat, es: seq<Event>, b: Buffer, x: nat, y: nat)
    requires Legal(scale, es) && HonestRun(scale, es)
    requires b in Run(scale, es).surface.released || b in Run(scale, es).surface.busy
    requires Run(scale, es).client.frame.Some? && Reached(b, scale, x, y)
    requires x < Run(scale, es).client.frame.value.width && y < Run(scale, es).client.frame.value.height
    requires !Stale(b, scale, x, y)
    ensures WellFormedBuffer(b) && FrameFits(Run(scale, es).client.frame.value)
    ensures BufferPixel(b, x, y) == FramePixel(Run(scale, es).client.frame.value, x, y)
  {
    RunKeeps(scale, es);
    assert Tracks(b, scale, Run(scale, es).client);
  }

  /**
   * A commit of `src` shows: the buffer handed to the host (the newest busy
   * one) has the size and format of the contents and equals them at (x, y).
   */
  ghost predicate ShowsAt(s: State, p: Contents, src: seq<byte>, x: nat, y: nat) {
    && s.busy != [] && WellFormedBuffer(s.busy[0])
    && Matches(s.busy[0], p.width, p.height, p.format)
    && Inside(p.layout, p.width, p.height, |src|)
    && x < p.width && y < p.height
    && BufferPixel(s.busy[0], x, y) == Pixel(src, p.layout, p.width, p.height, x, y)
  }

  /** After every shm commit of an honest client the host is shown the contents, pixel for pixel, within reach. */
  lemma {:induction false} CommitShowsFrame(scale: nat, es: seq<Event>, src: seq<byte>, x: nat, y: nat)
    requires Legal(scale, es + [Commit(src)]) && HonestRun(scale, es + [Commit(src)])
    requires Legal(scale, es) && Run(scale, es).client.pending.Some? && InReach(x, y, scale)
    requires x < Run(scale, es).client.pending.value.width && y < Run(scale, es).client.pending.value.height
    ensures ShowsAt(Run(scale, es + [Commit(src)]).surface, Run(scale, es).client.pending.value, src, x, y)
  {
    var all := es + [Commit(src)];
    assert all[..|all| - 1] == es;
    RunKeeps(scale, es);
    var r := Run(scale, es);
    var b := r.surface.released[IndexOf(r.surface.released, r.surface.current.value)];
    assert Tracks(b, scale, r.client);
    RefreshShows(b, scale, r.client, r.client.pending.value, src, x, y);
  }

  predicate Live(s: State, b: Buffer) {
    b in s.released || b in s.busy
  }

  /**
   * Write exclusion: the memory of a live buffer changes only at a commit, and
   * then it is the current buffer, taken from the released list, of the size
   * and format of the contents.
   */
  lemma {:induction false} OnlyCurrentWritten(s: State, e: Event, b: Buffer, b': Buffer)
    requires WellFormed(s) && Enabled(s, e)
    requires Live(s, b) && Live(Step(s, e), b') && b.id == b'.id && b.mem != b'.mem
    ensures e.Commit? && s.contents.Some? && s.current == Some(b.id)
    ensures b in s.released && Matches(b, s.contents.value.width, s.contents.value.height, s.contents.value.format)
    ensures b' in Step(s, e).busy
  {
    UniqueLive(s, b);
    match e {
      case Attach(buffer, alloc) =>
        if buffer.Some? && buffer.value.layout.Some? {
          var k := DropMismatchedSuffix(s.released, buffer.value.width, buffer.value.height, buffer.value.format);
        }
      case DamageSurface(_, _, _, _) => DamageKeepsList(s.released, e); DamageKeepsList(s.busy, e);
      case DamageBuffer(_, _, _, _) => DamageKeepsList(s.released, e); DamageKeepsList(s.busy, e);
      case Commit(src) =>
        if s.contents.Some? {
          RemoveKeeps(s.released, IndexOf(s.released, s.current.value));
        }
      case Release(id) => ReleaseLists(s, id);
    }
  }

  lemma {:induction false} UniqueLive(s: State, b: Buffer)
    requires WellFormed(s) && Live(s, b)
    ensures forall x :: Live(s, x) && x.id == b.id ==> x == b
  {
    forall x | Live(s, x) && x.id == b.id
      ensures x == b
    {
      if b in s.released { TheBuffer(s.released, b); } else { TheBuffer(s.busy, b); }
      if x in s.released { TheBuffer(s.released, x); } else { TheBuffer(s.busy, x); }
    }
  }
}

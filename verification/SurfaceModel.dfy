/**
 * The buffer queue of a client surface as a state machine: attach, damage,
 * damage_buffer, commit and the host's release (sommelier-compositor.cc).
 */
module SurfaceModel {
  import opened Machine
  import opened ShmFormats
  import opened PixelCopy
  import opened Damage

  /** An intermediate output buffer: its memory and the damage it has accumulated. */
  datatype Buffer = Buffer(
    id: nat, width: nat, height: nat, format: ShmFormat, layout: Layout, mem: seq<byte>,
    surfaceDamage: Region, bufferDamage: Region)

  /** The client contents attached and not yet committed (contents_shm_mmap is set). */
  datatype Contents = Contents(width: nat, height: nat, format: ShmFormat, layout: Layout)

  /** A wl_buffer of the client; `layout` is None when it has no shm mapping. */
  datatype ClientBuffer = ClientBuffer(width: nat, height: nat, format: ShmFormat, layout: Option<Layout>)

  /** What the channel hands out when a new output buffer must be allocated. */
  datatype Allocation = Allocation(layout: Layout, mem: seq<byte>)

  datatype State = State(
    scale: nat, released: seq<Buffer>, busy: seq<Buffer>,
    contents: Option<Contents>, current: Option<nat>, nextId: nat)

  datatype Event =
    | Attach(buffer: Option<ClientBuffer>, alloc: Allocation)
    | DamageSurface(x: int, y: int, w: int, h: int)
    | DamageBuffer(x: int, y: int, w: int, h: int)
    | Commit(mem: seq<byte>)
    | Release(id: nat)

  // ----- lists of buffers -----

  predicate HasId(bs: seq<Buffer>, id: nat) {
    exists i :: 0 <= i < |bs| && bs[i].id == id
  }

  ghost function IndexOf(bs: seq<Buffer>, id: nat): (i: nat)
    requires HasId(bs, id)
    ensures i < |bs| && bs[i].id == id
  {
    var i :| 0 <= i < |bs| && bs[i].id == id;
    i
  }

  function Remove(bs: seq<Buffer>, i: nat): seq<Buffer>
    requires i < |bs|
  {
    bs[..i] + bs[i + 1..]
  }

  predicate Distinct(bs: seq<Buffer>) {
    forall i, j :: 0 <= i < j < |bs| ==> bs[i].id != bs[j].id
  }

  predicate Apart(a: seq<Buffer>, b: seq<Buffer>) {
    forall x, y :: x in a && y in b ==> x.id != y.id
  }

  // ----- well-formed states -----

  predicate WellFormedBuffer(b: Buffer) {
    && Fits(b.layout, b.width, b.height, |b.mem|)
    && NumPlanes(b.format) == 1
    && b.layout.bpp == BytesPerPixel(b.format)
  }

  predicate Matches(b: Buffer, width: nat, height: nat, format: ShmFormat) {
    b.width == width && b.height == height && b.format == format
  }

  /**
   * Each buffer is in exactly one list; contents waiting for a commit have a
   * current buffer of their size and format, and it is in the released list.
   */
  ghost predicate WellFormed(s: State) {
    && s.scale >= 1
    && Distinct(s.released) && Distinct(s.busy) && Apart(s.released, s.busy)
    && (forall b :: b in s.released ==> WellFormedBuffer(b) && b.id < s.nextId)
    && (forall b :: b in s.busy ==> WellFormedBuffer(b) && b.id < s.nextId)
    && (s.contents.Some? ==>
          && s.contents.value.layout.bpp == BytesPerPixel(s.contents.value.format)
          && s.current.Some?
          && HasId(s.released, s.current.value)
          && var c := s.contents.value;
             Matches(s.released[IndexOf(s.released, s.current.value)], c.width, c.height, c.format))
  }

  /**
   * What a request has to come with: an output buffer from the channel that
   * fits (see SharedStrideFits), and client memory that holds the contents
   * when they are copied (see MappingHoldsCopyIff).
   */
  ghost predicate Enabled(s: State, e: Event) {
    match e
    case Attach(Some(cb), alloc) =>
      cb.layout.Some? ==>
        && NumPlanes(cb.format) == 1
        && cb.layout.value.bpp == BytesPerPixel(cb.format)
        && alloc.layout.bpp == BytesPerPixel(cb.format)
        && Fits(alloc.layout, cb.width, cb.height, |alloc.mem|)
    case Commit(mem) =>
      s.contents.Some? ==>
        var c := s.contents.value;
        Inside(c.layout, c.width, c.height, |mem|)
    case DamageSurface(x, y, w, h) => IsInt32(x) && IsInt32(y) && IsInt32(w) && IsInt32(h)
    case DamageBuffer(x, y, w, h) => IsInt32(x) && IsInt32(y) && IsInt32(w) && IsInt32(h)
    case _ => true
  }

  // ----- the requests -----

  /** Released buffers are thrown away from the front until one fits the new contents. */
  function DropMismatched(bs: seq<Buffer>, width: nat, height: nat, format: ShmFormat): seq<Buffer> {
    if bs == [] || Matches(bs[0], width, height, format) then bs
    else DropMismatched(bs[1..], width, height, format)
  }

  /** What is left is the longest suffix that starts with a fitting buffer. */
  lemma {:induction false} DropMismatchedSuffix(bs: seq<Buffer>, width: nat, height: nat, format: ShmFormat) returns (k: nat)
    ensures k <= |bs| && DropMismatched(bs, width, height, format) == bs[k..]
    ensures forall i :: 0 <= i < k ==> !Matches(bs[i], width, height, format)
    ensures k < |bs| ==> Matches(bs[k], width, height, format)
    decreases |bs|
  {
    if bs == [] || Matches(bs[0], width, height, format) {
      k := 0;
    } else {
      var j := DropMismatchedSuffix(bs[1..], width, height, format);
      k := j + 1;
    }
  }

  function NewBuffer(id: nat, cb: ClientBuffer, alloc: Allocation): Buffer {
    Buffer(id, cb.width, cb.height, cb.format, alloc.layout, alloc.mem, FullRegion, FullRegion)
  }

  /** The buffer for the next commit: the first fitting released one, else a new one. */
  function PickBuffer(s: State, cb: ClientBuffer, alloc: Allocation): State {
    var kept := DropMismatched(s.released, cb.width, cb.height, cb.format);
    if kept != [] then s.(released := kept, current := Some(kept[0].id))
    else s.(released := [NewBuffer(s.nextId, cb, alloc)], current := Some(s.nextId), nextId := s.nextId + 1)
  }

  function DoAttach(s: State, buffer: Option<ClientBuffer>, alloc: Allocation): State {
    var t := s.(contents := None, current := None);
    if buffer.None? || buffer.value.layout.None? then t
    else
      var cb := buffer.value;
      PickBuffer(t, cb, alloc).(contents := Some(Contents(cb.width, cb.height, cb.format, cb.layout.value)))
  }

  /** The damage one request adds to one buffer. */
  function AddDamage(b: Buffer, e: Event): Buffer
    requires e.DamageSurface? || e.DamageBuffer?
  {
    if e.DamageSurface? then b.(surfaceDamage := UnionRect(b.surfaceDamage, e.x, e.y, e.w, e.h))
    else b.(bufferDamage := UnionRect(b.bufferDamage, e.x, e.y, e.w, e.h))
  }

  function DamageAll(bs: seq<Buffer>, e: Event): seq<Buffer>
    requires e.DamageSurface? || e.DamageBuffer?
  {
    seq(|bs|, i requires 0 <= i < |bs| => AddDamage(bs[i], e))
  }

  /** sl_host_surface_damage and sl_host_surface_damage_buffer: every live buffer gets the rectangle. */
  function DoDamage(s: State, e: Event): State
    requires e.DamageSurface? || e.DamageBuffer?
  {
    s.(released := DamageAll(s.released, e), busy := DamageAll(s.busy, e))
  }

  /** The buffer after both damage regions were copied from the client's memory and cleared. */
  function Refresh(b: Buffer, c: Contents, scale: nat, src: seq<byte>): Buffer
    requires WellFormedBuffer(b) && Matches(b, c.width, c.height, c.format)
    requires Inside(c.layout, c.width, c.height, |src|) && c.layout.bpp == b.layout.bpp
  {
    var m1 := CopyRegion(b.mem, b.layout, src, c.layout, b.width, b.height, b.surfaceDamage, scale);
    var m2 := CopyRegion(m1, b.layout, src, c.layout, b.width, b.height, b.bufferDamage, 1);
    b.(mem := m2, surfaceDamage := [], bufferDamage := [])
  }

  /** The current buffer is released and takes the contents, and the client's memory holds them. */
  ghost predicate CanCommit(s: State, src: seq<byte>) {
    s.contents.Some? ==>
      && s.current.Some?
      && HasId(s.released, s.current.value)
      && var b, c := s.released[IndexOf(s.released, s.current.value)], s.contents.value;
         && WellFormedBuffer(b) && Matches(b, c.width, c.height, c.format)
         && Inside(c.layout, c.width, c.height, |src|) && c.layout.bpp == b.layout.bpp
  }

  ghost function DoCommit(s: State, src: seq<byte>): State
    requires CanCommit(s, src)
  {
    if s.contents.None? then s
    else
      var i := IndexOf(s.released, s.current.value);
      s.(released := Remove(s.released, i),
         busy := [Refresh(s.released[i], s.contents.value, s.scale, src)] + s.busy,
         contents := None)
  }

  /** wl_buffer.release moves the buffer to the front of the released list. */
  ghost function DoRelease(s: State, id: nat): State {
    if HasId(s.busy, id) then
      var i := IndexOf(s.busy, id);
      s.(busy := Remove(s.busy, i), released := [s.busy[i]] + s.released)
    else if HasId(s.released, id) then
      var i := IndexOf(s.released, id);
      s.(released := [s.released[i]] + Remove(s.released, i))
    else s
  }

  ghost function Step(s: State, e: Event): State
    requires WellFormed(s) && Enabled(s, e)
  {
    match e
    case Attach(buffer, alloc) => DoAttach(s, buffer, alloc)
    case DamageSurface(_, _, _, _) => DoDamage(s, e)
    case DamageBuffer(_, _, _, _) => DoDamage(s, e)
    case Commit(mem) => DoCommit(s, mem)
    case Release(id) => DoRelease(s, id)
  }

  function Initial(scale: nat): State {
    State(scale, [], [], None, None, 0)
  }

  // ----- every step keeps the lists well formed -----

  lemma {:induction false} IndexOfUnique(bs: seq<Buffer>, i: nat)
    requires i < |bs| && Distinct(bs)
    ensures HasId(bs, bs[i].id) && IndexOf(bs, bs[i].id) == i
  {
  }

  lemma {:induction false} TheBuffer(bs: seq<Buffer>, b: Buffer)
    requires b in bs && Distinct(bs)
    ensures HasId(bs, b.id) && bs[IndexOf(bs, b.id)] == b
  {
    var i :| 0 <= i < |bs| && bs[i] == b;
    IndexOfUnique(bs, i);
  }

  lemma {:induction false} RemoveDistinct(bs: seq<Buffer>, i: nat)
    requires i < |bs| && Distinct(bs)
    ensures Distinct(Remove(bs, i))
    ensures forall j :: 0 <= j < |bs| - 1 ==> Remove(bs, i)[j] == bs[if j < i then j else j + 1]
  {
  }

  lemma {:induction false} RemoveKeeps(bs: seq<Buffer>, i: nat)
    requires i < |bs| && Distinct(bs)
    ensures Distinct(Remove(bs, i))
    ensures forall b :: b in Remove(bs, i) ==> b in bs && b.id != bs[i].id
    ensures forall b :: b in bs && b.id != bs[i].id ==> b in Remove(bs, i)
  {
    RemoveDistinct(bs, i);
  }

  lemma {:induction false} Prepend(b: Buffer, bs: seq<Buffer>)
    requires Distinct(bs) && forall x :: x in bs ==> x.id != b.id
    ensures Distinct([b] + bs)
    ensures forall x :: x in [b] + bs <==> x == b || x in bs
  {
  }

  lemma {:induction false} Suffix(bs: seq<Buffer>, k: nat)
    requires k <= |bs| && Distinct(bs)
    ensures Distinct(bs[k..])
    ensures forall b :: b in bs[k..] ==> b in bs
  {
  }

  lemma {:induction false} AttachWellFormed(s: State, buffer: Option<ClientBuffer>, alloc: Allocation)
    requires WellFormed(s) && Enabled(s, Attach(buffer, alloc))
    ensures WellFormed(DoAttach(s, buffer, alloc))
  {
    if buffer.Some? && buffer.value.layout.Some? {
      var cb := buffer.value;
      var kept := DropMismatched(s.released, cb.width, cb.height, cb.format);
      var t := DoAttach(s, buffer, alloc);
      var k := DropMismatchedSuffix(s.released, cb.width, cb.height, cb.format);
      Suffix(s.released, k);
      IndexOfUnique(t.released, 0);
    }
  }

  /**
   * An attach of shm contents gives up the released buffers in front of the
   * first that fits, and takes that one, or a new one if none fits.
   */
  lemma {:induction false} AttachPicks(s: State, cb: ClientBuffer, alloc: Allocation) returns (k: nat)
    requires WellFormed(s) && Enabled(s, Attach(Some(cb), alloc)) && cb.layout.Some?
    ensures k <= |s.released| && forall i :: 0 <= i < k ==> !Matches(s.released[i], cb.width, cb.height, cb.format)
    ensures var t := Step(s, Attach(Some(cb), alloc));
            && t.busy == s.busy && t.contents == Some(Contents(cb.width, cb.height, cb.format, cb.layout.value))
            && if k < |s.released| then
                 && Matches(s.released[k], cb.width, cb.height, cb.format)
                 && t.released == s.released[k..] && t.current == Some(s.released[k].id)
               else
                 && |t.released| == 1 && Matches(t.released[0], cb.width, cb.height, cb.format)
                 && t.released[0].mem == alloc.mem && t.released[0].layout == alloc.layout
                 && t.current == Some(t.released[0].id) && !HasId(s.released, t.released[0].id)
  {
    k := DropMismatchedSuffix(s.released, cb.width, cb.height, cb.format);
  }

  /** Any other attach leaves the lists alone, and nothing to commit. */
  lemma {:induction false} AttachClears(s: State, buffer: Option<ClientBuffer>, alloc: Allocation)
    requires WellFormed(s) && Enabled(s, Attach(buffer, alloc)) && (buffer.None? || buffer.value.layout.None?)
    ensures var t := Step(s, Attach(buffer, alloc));
            t.busy == s.busy && t.released == s.released && t.contents.None? && t.current.None?
  {
  }

  /** A list without one buffer, in order. */
  function Others(bs: seq<Buffer>, id: nat): seq<Buffer> {
    if bs == [] then []
    else Others(bs[..|bs| - 1], id) + (if bs[|bs| - 1].id == id then [] else [bs[|bs| - 1]])
  }

  lemma {:induction false} NoOther(bs: seq<Buffer>, id: nat)
    requires !HasId(bs, id)
    ensures Others(bs, id) == bs
  {
    if bs != [] {
      var front := bs[..|bs| - 1];
      assert forall b :: b in front ==> b in bs;
      NoOther(front, id);
      assert bs == front + [bs[|bs| - 1]] && bs[|bs| - 1] in bs;
    }
  }

  lemma {:induction false} RemoveIsOthers(bs: seq<Buffer>, i: nat)
    requires i < |bs| && Distinct(bs)
    ensures Remove(bs, i) == Others(bs, bs[i].id)
  {
    var front, last := bs[..|bs| - 1], bs[|bs| - 1];
    if i == |bs| - 1 {
      NoOther(front, last.id);
      assert Remove(bs, i) == front && front + [] == front;
    } else {
      RemoveIsOthers(front, i);
      assert Remove(bs, i) == Remove(front, i) + [last];
    }
  }

  /** A buffer that is released comes first among the released ones, wherever it was; the others keep their order. */
  lemma {:induction false} ReleasedFirst(s: State, id: nat)
    requires WellFormed(s)
    ensures var t := Step(s, Release(id));
            && t.busy == Others(s.busy, id) && t.contents == s.contents && t.current == s.current
            && if HasId(s.busy, id) || HasId(s.released, id)
               then t.released != [] && t.released[0].id == id && t.released[1..] == Others(s.released, id)
               else t.released == s.released
  {
    if HasId(s.busy, id) {
      RemoveIsOthers(s.busy, IndexOf(s.busy, id));
      NoOther(s.released, id);
    } else {
      NoOther(s.busy, id);
      if HasId(s.released, id) {
        RemoveIsOthers(s.released, IndexOf(s.released, id));
      }
    }
  }

  lemma {:induction false} DamageKeepsList(bs: seq<Buffer>, e: Event)
    requires Distinct(bs) && (e.DamageSurface? || e.DamageBuffer?)
    ensures Distinct(DamageAll(bs, e))
    ensures forall c :: c in DamageAll(bs, e) ==> exists i :: 0 <= i < |bs| && c == AddDamage(bs[i], e)
  {
  }

  lemma {:induction false} DamageApart(a: seq<Buffer>, b: seq<Buffer>, e: Event)
    requires Apart(a, b) && (e.DamageSurface? || e.DamageBuffer?)
    ensures Apart(DamageAll(a, e), DamageAll(b, e))
  {
    forall x, y | x in DamageAll(a, e) && y in DamageAll(b, e)
      ensures x.id != y.id
    {
      var i :| 0 <= i < |a| && x == AddDamage(a[i], e);
      var j :| 0 <= j < |b| && y == AddDamage(b[j], e);
      assert a[i] in a && b[j] in b;
    }
  }

  lemma {:induction false} DamageWellFormed(s: State, e: Event)
    requires WellFormed(s) && Enabled(s, e) && (e.DamageSurface? || e.DamageBuffer?)
    ensures WellFormed(Step(s, e))
  {
    var t := Step(s, e);
    DamageKeepsList(s.released, e);
    DamageKeepsList(s.busy, e);
    DamageApart(s.released, s.busy, e);
    if s.contents.Some? {
      IndexOfUnique(t.released, IndexOf(s.released, s.current.value));
    }
  }

  lemma {:induction false} CommitWellFormed(s: State, src: seq<byte>)
    requires WellFormed(s) && Enabled(s, Commit(src))
    ensures WellFormed(DoCommit(s, src))
  {
    if s.contents.Some? {
      var i := IndexOf(s.released, s.current.value);
      RemoveKeeps(s.released, i);
      Prepend(Refresh(s.released[i], s.contents.value, s.scale, src), s.busy);
    }
  }

  lemma {:induction false} ReleaseLists(s: State, id: nat)
    requires WellFormed(s)
    ensures var t := DoRelease(s, id);
            && Distinct(t.released) && Distinct(t.busy) && Apart(t.released, t.busy)
            && (forall b :: b in t.busy ==> b in s.busy)
            && (forall b :: b in t.released ==> b in s.busy || b in s.released)
            && (forall b :: b in s.released ==> b in t.released)
  {
    if HasId(s.busy, id) {
      var i := IndexOf(s.busy, id);
      RemoveKeeps(s.busy, i);
      Prepend(s.busy[i], s.released);
    } else if HasId(s.released, id) {
      var i := IndexOf(s.released, id);
      RemoveKeeps(s.released, i);
      Prepend(s.released[i], Remove(s.released, i));
      forall b | b in s.released && b.id == id
        ensures b == s.released[i]
      {
        TheBuffer(s.released, b);
      }
    }
  }

  lemma {:induction false} ReleaseWellFormed(s: State, id: nat)
    requires WellFormed(s)
    ensures WellFormed(DoRelease(s, id))
  {
    ReleaseLists(s, id);
    if s.contents.Some? {
      TheBuffer(DoRelease(s, id).released, s.released[IndexOf(s.released, s.current.value)]);
    }
  }

  /** Every request keeps each buffer in exactly one list and the current buffer in the released one. */
  lemma {:induction false} StepWellFormed(s: State, e: Event)
    requires WellFormed(s) && Enabled(s, e)
    ensures WellFormed(Step(s, e))
  {
    match e
    case Attach(buffer, alloc) => AttachWellFormed(s, buffer, alloc);
    case DamageSurface(_, _, _, _) => DamageWellFormed(s, e);
    case DamageBuffer(_, _, _, _) => DamageWellFormed(s, e);
    case Commit(src) => CommitWellFormed(s, src);
    case Release(id) => ReleaseWellFormed(s, id);
  }
}

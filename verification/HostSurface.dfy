/**
 * The surface as sommelier keeps it: lists of output buffers whose damage and
 * memory are updated in place. Every request is proved to take the step of
 * SurfaceModel.
 */
module HostSurface {
  import opened Machine
  import opened ShmFormats
  import opened PixelCopy
  import opened Damage
  import M = SurfaceModel

  /** sl_output_buffer. */
  class OutputBuffer {
    const id: nat
    const width: nat
    const height: nat
    const format: ShmFormat
    const layout: Layout
    const mem: array<byte>
    var surfaceDamage: Region
    var bufferDamage: Region

    constructor (id: nat, width: nat, height: nat, format: ShmFormat, layout: Layout, mem: array<byte>)
      ensures this.id == id && this.mem == mem
      ensures View() == M.Buffer(id, width, height, format, layout, mem[..], FullRegion, FullRegion)
    {
      this.id := id;
      this.width, this.height, this.format := width, height, format;
      this.layout, this.mem := layout, mem;
      surfaceDamage, bufferDamage := FullRegion, FullRegion;
    }

    ghost function View(): M.Buffer
      reads this, mem
    {
      M.Buffer(id, width, height, format, layout, mem[..], surfaceDamage, bufferDamage)
    }
  }

  /** The client memory behind a wl_buffer (sl_mmap). */
  class Mapping {
    const layout: Layout
    const mem: array<byte>

    constructor (layout: Layout, mem: array<byte>)
      ensures this.layout == layout && this.mem == mem
    {
      this.layout, this.mem := layout, mem;
    }
  }

  ghost function Mems(bs: seq<OutputBuffer>): set<array<byte>> {
    set b | b in bs :: b.mem
  }

  ghost function Views(bs: seq<OutputBuffer>): (r: seq<M.Buffer>)
    reads bs, Mems(bs)
    ensures |r| == |bs|
    ensures forall i :: 0 <= i < |bs| ==> r[i] == bs[i].View()
  {
    seq(|bs|, i requires 0 <= i < |bs| reads bs, Mems(bs) => bs[i].View())
  }

  twostate lemma ViewsUnchanged(bs: seq<OutputBuffer>)
    requires forall b :: b in bs ==> unchanged(b) && unchanged(b.mem)
    ensures Views(bs) == old(Views(bs))
  {
  }

  ghost function Without(bs: seq<OutputBuffer>, i: nat): seq<OutputBuffer>
    requires i < |bs|
  {
    bs[..i] + bs[i + 1..]
  }

  lemma {:induction false} ViewsWithout(bs: seq<OutputBuffer>, i: nat)
    requires i < |bs|
    ensures Views(Without(bs, i)) == M.Remove(Views(bs), i)
  {
  }

  /** All views but one are as they were. */
  lemma {:induction false} OthersUnchanged(bs: seq<OutputBuffer>, i: nat, before: seq<M.Buffer>)
    requires i < |bs| == |before|
    requires forall j :: 0 <= j < |bs| && j != i ==> bs[j].View() == before[j]
    ensures M.Remove(Views(bs), i) == M.Remove(before, i)
  {
  }

  lemma {:induction false} ViewsTail(bs: seq<OutputBuffer>)
    requires bs != []
    ensures Views(bs[1..]) == Views(bs)[1..]
  {
  }

  lemma {:induction false} ViewsPrepend(b: OutputBuffer, bs: seq<OutputBuffer>)
    ensures Views([b] + bs) == [b.View()] + Views(bs)
  {
  }

  lemma {:induction false} WithoutSeparate(bs: seq<OutputBuffer>, i: nat)
    requires i < |bs| && Separate(bs)
    ensures Separate(Without(bs, i))
    ensures forall b :: b in Without(bs, i) <==> b in bs && b != bs[i]
    ensures forall b :: b in Without(bs, i) ==> b.mem != bs[i].mem && b.id != bs[i].id
  {
    var r := Without(bs, i);
    assert forall j :: 0 <= j < |r| ==> r[j] == bs[if j < i then j else j + 1];
    forall b | b in bs && b != bs[i]
      ensures b in r
    {
      var j :| 0 <= j < |bs| && bs[j] == b;
      assert r[if j < i then j else j - 1] == b;
    }
  }

  lemma {:induction false} PrependSeparate(b: OutputBuffer, bs: seq<OutputBuffer>)
    requires Separate(bs) && forall x :: x in bs ==> x != b && x.mem != b.mem && x.id != b.id
    ensures Separate([b] + bs)
    ensures forall x :: x in [b] + bs <==> x == b || x in bs
  {
  }

  /** No two buffers of the lists are the same object or share memory. */
  ghost predicate Separate(bs: seq<OutputBuffer>) {
    forall i, j :: 0 <= i < j < |bs| ==> bs[i] != bs[j] && bs[i].mem != bs[j].mem && bs[i].id != bs[j].id
  }

  ghost predicate Apart(a: seq<OutputBuffer>, b: seq<OutputBuffer>) {
    forall x, y :: x in a && y in b ==> x != y && x.mem != y.mem && x.id != y.id
  }

  lemma {:induction false} MoveSeparate(from: seq<OutputBuffer>, i: nat, to: seq<OutputBuffer>)
    requires i < |from| && Separate(from) && Separate(to) && Apart(to, from)
    ensures Separate(Without(from, i)) && Separate([from[i]] + to)
    ensures Apart([from[i]] + to, Without(from, i)) && Apart(Without(from, i), [from[i]] + to)
    ensures forall b :: b in Without(from, i) ==> b in from
    ensures forall b :: b in [from[i]] + to <==> b == from[i] || b in to
  {
    assert from[i] in from;
    WithoutSeparate(from, i);
    PrependSeparate(from[i], to);
  }

  lemma {:induction false} MoveViews(from: seq<OutputBuffer>, i: nat, to: seq<OutputBuffer>)
    requires i < |from|
    ensures Views(Without(from, i)) == M.Remove(Views(from), i)
    ensures Views([from[i]] + to) == [Views(from)[i]] + Views(to)
  {
    ViewsWithout(from, i);
    ViewsPrepend(from[i], to);
  }

  /** Copies every rectangle of a region, as the two loops of sl_host_surface_commit do. */
  method CopyRects(dst: array<byte>, dl: Layout, src: array<byte>, sl: Layout, w: nat, h: nat, region: Region, n: nat)
    requires dst != src
    requires Fits(dl, w, h, dst.Length) && Inside(sl, w, h, src.Length) && dl.bpp == sl.bpp
    modifies dst
    ensures dst[..] == CopyRegion(old(dst[..]), dl, src[..], sl, w, h, region, n)
  {
    ghost var dst0, src0 := dst[..], src[..];
    for i := 0 to |region|
      invariant src[..] == src0
      invariant dst[..] == CopyRegion(dst0, dl, src0, sl, w, h, region[..i], n)
    {
      var b := EnclosingBox(region[i], n, w, h);
      if b.x1 < b.x2 && b.y1 < b.y2 {
        CopyRows(dst, dl, src, sl, w, h, b);
      }
      assert region[..i + 1][..i] == region[..i];
    }
    assert region[..|region|] == region;
  }

  lemma {:induction false} DamageAdded(bs: seq<OutputBuffer>, before: seq<M.Buffer>, e: M.Event)
    requires e.DamageSurface? || e.DamageBuffer?
    requires |bs| == |before| && forall j :: 0 <= j < |bs| ==> bs[j].View() == M.AddDamage(before[j], e)
    ensures Views(bs) == M.DamageAll(before, e)
  {
  }

  /** The loop of sl_host_surface_damage over one list. */
  method UnionSurfaceDamage(bs: seq<OutputBuffer>, x: int, y: int, w: int, h: int)
    requires Separate(bs)
    modifies bs`surfaceDamage
    ensures Views(bs) == M.DamageAll(old(Views(bs)), M.DamageSurface(x, y, w, h))
  {
    ghost var before, e := Views(bs), M.DamageSurface(x, y, w, h);
    for i := 0 to |bs|
      invariant forall j :: 0 <= j < i ==> bs[j].View() == M.AddDamage(before[j], e)
      invariant forall j :: i <= j < |bs| ==> bs[j].View() == before[j]
    {
      bs[i].surfaceDamage := UnionRect(bs[i].surfaceDamage, x, y, w, h);
    }
    DamageAdded(bs, before, e);
  }

  /** The loop of sl_host_surface_damage_buffer over one list. */
  method UnionBufferDamage(bs: seq<OutputBuffer>, x: int, y: int, w: int, h: int)
    requires Separate(bs)
    modifies bs`bufferDamage
    ensures Views(bs) == M.DamageAll(old(Views(bs)), M.DamageBuffer(x, y, w, h))
  {
    ghost var before, e := Views(bs), M.DamageBuffer(x, y, w, h);
    for i := 0 to |bs|
      invariant forall j :: 0 <= j < i ==> bs[j].View() == M.AddDamage(before[j], e)
      invariant forall j :: i <= j < |bs| ==> bs[j].View() == before[j]
    {
      bs[i].bufferDamage := UnionRect(bs[i].bufferDamage, x, y, w, h);
    }
    DamageAdded(bs, before, e);
  }

  method UnionSurfaceDamageLists(busy: seq<OutputBuffer>, released: seq<OutputBuffer>, x: int, y: int, w: int, h: int)
    requires Separate(busy) && Separate(released) && Apart(released, busy)
    modifies busy`surfaceDamage, released`surfaceDamage
    ensures Views(busy) == M.DamageAll(old(Views(busy)), M.DamageSurface(x, y, w, h))
    ensures Views(released) == M.DamageAll(old(Views(released)), M.DamageSurface(x, y, w, h))
  {
    UnionSurfaceDamage(busy, x, y, w, h);
    ViewsUnchanged(released);
    label BusyDone:
    UnionSurfaceDamage(released, x, y, w, h);
    ViewsUnchanged@BusyDone(busy);
  }

  method UnionBufferDamageLists(busy: seq<OutputBuffer>, released: seq<OutputBuffer>, x: int, y: int, w: int, h: int)
    requires Separate(busy) && Separate(released) && Apart(released, busy)
    modifies busy`bufferDamage, released`bufferDamage
    ensures Views(busy) == M.DamageAll(old(Views(busy)), M.DamageBuffer(x, y, w, h))
    ensures Views(released) == M.DamageAll(old(Views(released)), M.DamageBuffer(x, y, w, h))
  {
    UnionBufferDamage(busy, x, y, w, h);
    ViewsUnchanged(released);
    label BusyDone:
    UnionBufferDamage(released, x, y, w, h);
    ViewsUnchanged@BusyDone(busy);
  }

  /** The copy loops of sl_host_surface_commit on the current buffer, and its damage cleared. */
  method RefreshBuffer(b: OutputBuffer, m: Mapping, format: ShmFormat, w: nat, h: nat, scale: nat)
    requires b.mem != m.mem
    requires M.WellFormedBuffer(b.View()) && M.Matches(b.View(), w, h, format)
    requires Inside(m.layout, w, h, m.mem.Length) && m.layout.bpp == b.layout.bpp
    modifies b, b.mem
    ensures b.View() == M.Refresh(old(b.View()), M.Contents(w, h, format, m.layout), scale, old(m.mem[..]))
  {
    CopyRects(b.mem, b.layout, m.mem, m.layout, w, h, b.surfaceDamage, scale);
    CopyRects(b.mem, b.layout, m.mem, m.layout, w, h, b.bufferDamage, 1);
    b.surfaceDamage, b.bufferDamage := [], [];
  }

  lemma {:induction false} ViewIndex(bs: seq<OutputBuffer>, i: nat)
    requires Separate(bs) && i < |bs|
    ensures M.HasId(Views(bs), bs[i].id) && M.IndexOf(Views(bs), bs[i].id) == i
  {
    assert M.Distinct(Views(bs));
    M.IndexOfUnique(Views(bs), i);
  }

  /** Drops buffers from the front until one fits the contents; `current` is that one. */
  method FirstMatch(bs: seq<OutputBuffer>, width: nat, height: nat, format: ShmFormat)
    returns (kept: seq<OutputBuffer>, current: OutputBuffer?, ghost k: nat)
    ensures k <= |bs| && kept == bs[k..]
    ensures old(Views(kept)) == M.DropMismatched(old(Views(bs)), width, height, format)
    ensures if kept == [] then current == null else current == kept[0]
  {
    kept, current, k := bs, null, 0;
    while kept != []
      invariant 0 <= k <= |bs| && kept == bs[k..]
      invariant current == null
      invariant M.DropMismatched(Views(kept), width, height, format) == M.DropMismatched(Views(bs), width, height, format)
      decreases |kept|
    {
      current := kept[0];
      if current.width == width && current.height == height && current.format == format {
        break;
      }
      ViewsTail(kept);
      kept, current, k := kept[1..], null, k + 1;
    }
    ViewsUnchanged(bs);
    ViewsUnchanged(kept);
  }

  class Surface {
    const scale: nat
    var released: seq<OutputBuffer>
    var busy: seq<OutputBuffer>
    var current: OutputBuffer?
    var contents: Mapping?
    var contentsWidth: nat
    var contentsHeight: nat
    var contentsFormat: ShmFormat
    var nextId: nat

    ghost function View(): M.State
      reads this, released, busy, Mems(released), Mems(busy)
    {
      M.State(scale, Views(released), Views(busy),
              if contents == null then None else Some(M.Contents(contentsWidth, contentsHeight, contentsFormat, contents.layout)),
              if current == null then None else Some(current.id), nextId)
    }

    /** The heap side of the surface: no aliasing between buffers, lists and client memory. */
    ghost predicate Valid()
      reads this
    {
      && Separate(released) && Separate(busy) && Apart(released, busy)
      && (forall b :: b in released ==> b.id < nextId)
      && (forall b :: b in busy ==> b.id < nextId)
      && (contents != null ==>
            && current != null && current in released
            && contents.mem !in Mems(released) && contents.mem !in Mems(busy))
    }

    constructor (scale: nat)
      requires scale >= 1
      ensures Valid() && View() == M.Initial(scale)
    {
      this.scale := scale;
      released, busy, current, contents := [], [], null, null;
      contentsWidth, contentsHeight, contentsFormat := 0, 0, ARGB8888;
      nextId := 0;
    }

    method DamageSurface(x: int, y: int, w: int, h: int)
      requires Valid()
      modifies released`surfaceDamage, busy`surfaceDamage
      ensures Valid() && View() == M.DoDamage(old(View()), M.DamageSurface(x, y, w, h))
    {
      UnionSurfaceDamageLists(busy, released, x, y, w, h);
    }

    method DamageBuffer(x: int, y: int, w: int, h: int)
      requires Valid()
      modifies released`bufferDamage, busy`bufferDamage
      ensures Valid() && View() == M.DoDamage(old(View()), M.DamageBuffer(x, y, w, h))
    {
      UnionBufferDamageLists(busy, released, x, y, w, h);
    }

    /** The current buffer leaves the released list for the front of the busy list. */
    method HandOver(i: nat)
      requires Valid() && contents != null && i < |released| && released[i] == current
      modifies this`released, this`busy, this`contents
      ensures Valid()
      ensures var s := old(View());
              View() == s.(released := M.Remove(s.released, i), busy := [s.released[i]] + s.busy, contents := None)
    {
      MoveSeparate(released, i, busy);
      MoveViews(released, i, busy);
      released, busy := released[..i] + released[i + 1..], [current] + busy;
      contents := null;
      ViewsUnchanged(busy);
      ViewsUnchanged(released);
    }

    /** sl_host_surface_commit, up to the buffer hand-over. */
    method Commit()
      requires Valid()
      requires contents != null ==> M.CanCommit(View(), contents.mem[..])
      modifies this, current, if current != null then {current.mem} else {}
      ensures Valid()
      ensures old(contents) == null ==> View() == old(View())
      ensures old(contents) != null ==> View() == M.DoCommit(old(View()), old(contents.mem[..]))
    {
      if contents != null {
        var i :| 0 <= i < |released| && released[i] == current;
        ViewIndex(released, i);
        assert Views(released)[i] == current.View();
        RefreshBuffer(current, contents, contentsFormat, contentsWidth, contentsHeight, scale);
        ViewsUnchanged(busy);
        OthersUnchanged(released, i, old(Views(released)));
        HandOver(i);
      }
    }

    /** A busy buffer moves to the front of the released list. */
    method TakeBack(i: nat)
      requires Valid() && i < |busy|
      modifies this`released, this`busy
      ensures Valid()
      ensures var s := old(View());
              View() == s.(busy := M.Remove(s.busy, i), released := [s.busy[i]] + s.released)
    {
      MoveSeparate(busy, i, released);
      MoveViews(busy, i, released);
      busy, released := busy[..i] + busy[i + 1..], [busy[i]] + released;
      ViewsUnchanged(busy);
      ViewsUnchanged(released);
    }

    /** A released buffer moves to the front of its own list. */
    method MoveToFront(i: nat)
      requires Valid() && i < |released|
      modifies this`released
      ensures Valid()
      ensures var s := old(View());
              View() == s.(released := [s.released[i]] + M.Remove(s.released, i))
    {
      var b := released[i];
      WithoutSeparate(released, i);
      PrependSeparate(b, Without(released, i));
      ViewsWithout(released, i);
      ViewsPrepend(b, Without(released, i));
      released := [b] + (released[..i] + released[i + 1..]);
      ViewsUnchanged(busy);
      ViewsUnchanged(released);
    }

    lemma {:induction false} ReleaseOfBusy(i: nat)
      requires Valid() && i < |busy|
      ensures var s := View();
              M.DoRelease(s, busy[i].id) == s.(busy := M.Remove(s.busy, i), released := [s.busy[i]] + s.released)
    {
      ViewIndex(busy, i);
    }

    lemma {:induction false} ReleaseOfReleased(i: nat)
      requires Valid() && i < |released|
      ensures var s := View();
              M.DoRelease(s, released[i].id) == s.(released := [s.released[i]] + M.Remove(s.released, i))
    {
      ViewIndex(released, i);
      assert !M.HasId(Views(busy), released[i].id);
    }

    method ReleaseBusy(b: OutputBuffer)
      requires Valid() && b in busy
      modifies this`released, this`busy
      ensures Valid() && View() == M.DoRelease(old(View()), b.id)
    {
      var i :| 0 <= i < |busy| && busy[i] == b;
      ReleaseOfBusy(i);
      TakeBack(i);
    }

    method ReleaseAgain(b: OutputBuffer)
      requires Valid() && b in released
      modifies this`released
      ensures Valid() && View() == M.DoRelease(old(View()), b.id)
    {
      var i :| 0 <= i < |released| && released[i] == b;
      ReleaseOfReleased(i);
      MoveToFront(i);
    }

    /** sl_output_buffer_release: out of whichever list it is in, to the front of the released one. */
    method Release(b: OutputBuffer)
      requires Valid() && (b in busy || b in released)
      modifies this`released, this`busy
      ensures Valid() && View() == M.DoRelease(old(View()), b.id)
    {
      if b in busy {
        ReleaseBusy(b);
      } else {
        ReleaseAgain(b);
      }
    }

    /** Forgets the previous contents and takes over the size and format of the new buffer, if any. */
    method Reset(attached: bool, width: nat, height: nat, format: ShmFormat)
      requires Valid()
      modifies this`current, this`contents, this`contentsWidth, this`contentsHeight, this`contentsFormat
      ensures Valid() && contents == null && current == null
      ensures attached ==> contentsWidth == width && contentsHeight == height && contentsFormat == format
      ensures View() == old(View()).(contents := None, current := None)
    {
      current, contents := null, null;
      if attached {
        contentsWidth, contentsHeight, contentsFormat := width, height, format;
      }
      ViewsUnchanged(released);
      ViewsUnchanged(busy);
    }

    /** Drops released buffers that do not fit; the first fitting one becomes current. */
    method ChooseReleased(width: nat, height: nat, format: ShmFormat)
      requires Valid() && contents == null
      modifies this`released, this`current
      ensures Valid() && forall b :: b in released ==> b in old(released)
      ensures if released == [] then current == null else current == released[0]
      ensures var kept := M.DropMismatched(old(View()).released, width, height, format);
              View() == old(View()).(released := kept, current := if kept == [] then None else Some(kept[0].id))
    {
      ghost var k;
      released, current, k := FirstMatch(released, width, height, format);
      ViewsUnchanged(released);
      ViewsUnchanged(busy);
    }

    /** A new output buffer, wholly damaged, becomes the only released one and current. */
    method AllocateBuffer(width: nat, height: nat, format: ShmFormat, layout: Layout, mem: array<byte>)
      requires Valid() && contents == null && released == [] && mem !in Mems(busy)
      modifies this`released, this`current, this`nextId
      ensures Valid() && current != null && released == [current] && current.mem == mem
      ensures var s := old(View());
              View() == s.(released := [M.Buffer(s.nextId, width, height, format, layout, mem[..], FullRegion, FullRegion)],
                           current := Some(s.nextId), nextId := s.nextId + 1)
    {
      var b := new OutputBuffer(nextId, width, height, format, layout, mem);
      released, current, nextId := [b], b, nextId + 1;
      ViewsUnchanged(busy);
    }

    /** The buffer for the next commit. */
    method PickBuffer(cb: M.ClientBuffer, layout: Layout, mem: array<byte>)
      requires Valid() && contents == null && mem !in Mems(busy)
      modifies this`released, this`current, this`nextId
      ensures Valid() && current != null && current in released
      ensures forall b :: b in released ==> b in old(released) || b.mem == mem
      ensures View() == M.PickBuffer(old(View()), cb, M.Allocation(layout, mem[..]))
    {
      ChooseReleased(cb.width, cb.height, cb.format);
      if current == null {
        AllocateBuffer(cb.width, cb.height, cb.format, layout, mem);
      }
    }

    /** The attached mapping becomes the contents. */
    method SetContents(mapping: Mapping)
      requires Valid() && current != null && current in released
      requires mapping.mem !in Mems(released) && mapping.mem !in Mems(busy)
      modifies this`contents
      ensures Valid()
      ensures View() == old(View()).(contents := Some(M.Contents(contentsWidth, contentsHeight, contentsFormat, mapping.layout)))
    {
      contents := mapping;
      ViewsUnchanged(released);
      ViewsUnchanged(busy);
    }

    /** The part of sl_host_surface_attach for shm memory. */
    method TakeContents(cb: M.ClientBuffer, mapping: Mapping, layout: Layout, alloc: array<byte>)
      requires Valid() && contents == null && cb.layout == Some(mapping.layout)
      requires contentsWidth == cb.width && contentsHeight == cb.height && contentsFormat == cb.format
      requires alloc !in Mems(busy)
      requires mapping.mem != alloc && mapping.mem !in Mems(released) && mapping.mem !in Mems(busy)
      modifies this`released, this`current, this`nextId, this`contents
      ensures Valid()
      ensures View() == M.PickBuffer(old(View()), cb, M.Allocation(layout, alloc[..]))
                        .(contents := Some(M.Contents(cb.width, cb.height, cb.format, mapping.layout)))
    {
      PickBuffer(cb, layout, alloc);
      SetContents(mapping);
    }

    /**
     * sl_host_surface_attach. `attached` is false for a null buffer and
     * `mapping` is null for a buffer without shm memory. The last two
     * arguments are what the channel would allocate for a new output buffer.
     */
    method Attach(attached: bool, width: nat, height: nat, format: ShmFormat, mapping: Mapping?,
                  allocLayout: Layout, alloc: array<byte>)
      requires Valid()
      requires alloc !in Mems(released) && alloc !in Mems(busy)
      requires mapping != null ==> mapping.mem != alloc && mapping.mem !in Mems(released) && mapping.mem !in Mems(busy)
      modifies this
      ensures Valid()
      ensures View() == M.DoAttach(old(View()),
                if !attached then None
                else Some(M.ClientBuffer(width, height, format, if mapping == null then None else Some(mapping.layout))),
                M.Allocation(allocLayout, alloc[..]))
    {
      Reset(attached, width, height, format);
      if attached && mapping != null {
        TakeContents(M.ClientBuffer(width, height, format, Some(mapping.layout)), mapping, allocLayout, alloc);
      }
    }
  }
}

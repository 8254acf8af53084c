/**
 * Reference counts of client mappings (sommelier-mmap.cc) over the life of
 * wl_buffers and surfaces: creation, attach, commit and destruction.
 */
module MmapRefs {
  import opened Machine

  /** sl_mmap: `resource` is the wl_buffer to release after a commit, while it exists. */
  datatype Mapping = Mapping(refcount: int, mapped: bool, resource: Option<nat>)

  /** A wl_buffer or a surface and the mapping it points to (shm_mmap, contents_shm_mmap). */
  type Table = map<nat, Option<nat>>

  datatype State = State(maps: map<nat, Mapping>, buffers: Table, surfaces: Table, released: seq<nat>)

  datatype Event =
    | CreateBuffer(buffer: nat, mapping: Option<nat>)
    | CreateSurface(surface: nat)
    | Attach(surface: nat, to: Option<nat>)
    | Commit(surface: nat)
    | DestroyBuffer(buffer: nat)
    | DestroySurface(surface: nat)

  /** sl_mmap_ref. */
  function Ref(maps: map<nat, Mapping>, m: nat): map<nat, Mapping>
    requires m in maps
  {
    maps[m := maps[m].(refcount := maps[m].refcount + 1)]
  }

  /** sl_mmap_unref: the last reference unmaps the memory. */
  function Unref(maps: map<nat, Mapping>, m: nat): map<nat, Mapping>
    requires m in maps
  {
    maps[m := maps[m].(refcount := maps[m].refcount - 1, mapped := maps[m].mapped && maps[m].refcount != 1)]
  }

  function UnrefOpt(maps: map<nat, Mapping>, m: Option<nat>): map<nat, Mapping>
    requires m.Some? ==> m.value in maps
  {
    if m.Some? then Unref(maps, m.value) else maps
  }

  /** Events name live objects, and new objects have new names. */
  predicate Enabled(s: State, e: Event) {
    match e
    case CreateBuffer(b, m) => b !in s.buffers && (m.Some? ==> m.value !in s.maps)
    case CreateSurface(u) => u !in s.surfaces
    case Attach(u, to) => u in s.surfaces && (to.Some? ==> to.value in s.buffers)
    case Commit(u) => u in s.surfaces
    case DestroyBuffer(b) => b in s.buffers
    case DestroySurface(u) => u in s.surfaces
  }

  predicate Closed(s: State) {
    && (forall b :: b in s.buffers && s.buffers[b].Some? ==> s.buffers[b].value in s.maps)
    && (forall u :: u in s.surfaces && s.surfaces[u].Some? ==> s.surfaces[u].value in s.maps)
  }

  function Step(s: State, e: Event): State
    requires Enabled(s, e) && Closed(s)
  {
    match e
    case CreateBuffer(b, m) =>
      s.(buffers := s.buffers[b := m],
         maps := if m.Some? then s.maps[m.value := Mapping(1, true, Some(b))] else s.maps)
    case CreateSurface(u) => s.(surfaces := s.surfaces[u := None])
    case Attach(u, to) =>
      var maps := UnrefOpt(s.maps, s.surfaces[u]);
      var m := if to.Some? then s.buffers[to.value] else None;
      s.(maps := if m.Some? then Ref(maps, m.value) else maps, surfaces := s.surfaces[u := m])
    case Commit(u) =>
      if s.surfaces[u].None? then s
      else
        var m := s.surfaces[u].value;
        s.(released := if s.maps[m].resource.Some? then s.released + [s.maps[m].resource.value] else s.released,
           maps := Unref(s.maps, m), surfaces := s.surfaces[u := None])
    case DestroyBuffer(b) =>
      if s.buffers[b].None? then s.(buffers := s.buffers - {b})
      else
        var m := s.buffers[b].value;
        s.(maps := Unref(s.maps[m := s.maps[m].(resource := None)], m), buffers := s.buffers - {b})
    case DestroySurface(u) =>
      s.(maps := UnrefOpt(s.maps, s.surfaces[u]), surfaces := s.surfaces - {u})
  }

  // ----- who holds a mapping -----

  function Holders(t: Table, m: nat): set<nat> {
    set k | k in t && t[k] == Some(m)
  }

  function Points(t: Table, k: nat, m: nat): nat {
    if k in t && t[k] == Some(m) then 1 else 0
  }

  lemma {:induction false} SetHolder(t: Table, k: nat, v: Option<nat>, m: nat)
    ensures |Holders(t[k := v], m)| == |Holders(t, m)| - Points(t, k, m) + (if v == Some(m) then 1 else 0)
  {
    var rest := Holders(t, m) - {k};
    assert Holders(t, m) == if Points(t, k, m) == 1 then rest + {k} else rest;
    assert Holders(t[k := v], m) == if v == Some(m) then rest + {k} else rest;
  }

  lemma {:induction false} DropHolder(t: Table, k: nat, m: nat)
    ensures |Holders(t - {k}, m)| == |Holders(t, m)| - Points(t, k, m)
  {
    var rest := Holders(t, m) - {k};
    assert Holders(t, m) == if Points(t, k, m) == 1 then rest + {k} else rest;
    assert Holders(t - {k}, m) == rest;
  }

  /** Conservation: the count is the number of holders, and the memory is mapped exactly while someone holds it. */
  predicate CountOk(s: State, m: nat)
    requires m in s.maps
  {
    && s.maps[m].refcount == |Holders(s.buffers, m)| + |Holders(s.surfaces, m)|
    && s.maps[m].mapped == (s.maps[m].refcount > 0)
  }

  /** At most one wl_buffer owns a mapping, and it is the one that gets the release event. */
  predicate OwnerOk(s: State, m: nat)
    requires m in s.maps
  {
    Holders(s.buffers, m) == if s.maps[m].resource.Some? then {s.maps[m].resource.value} else {}
  }

  predicate Invariant(s: State) {
    && Closed(s)
    && (forall m :: m in s.maps ==> CountOk(s, m))
    && (forall m :: m in s.maps ==> OwnerOk(s, m))
  }

  lemma {:induction false} NoHolders(t: Table, m: nat)
    requires forall k :: k in t && t[k].Some? ==> t[k].value != m
    ensures Holders(t, m) == {}
  {
  }

  lemma {:induction false} HolderCounts(t: Table, k: nat, m: nat)
    requires k in t && t[k] == Some(m)
    ensures |Holders(t, m)| >= 1
  {
    assert k in Holders(t, m);
  }

  // Each lemma looks at one mapping; only creation and destruction touch the owner.

  lemma {:induction false} NewMapping(s: State, b: nat, m: nat)
    requires Closed(s) && Enabled(s, CreateBuffer(b, Some(m)))
    ensures var t := Step(s, CreateBuffer(b, Some(m))); CountOk(t, m) && OwnerOk(t, m)
  {
    SetHolder(s.buffers, b, Some(m), m);
    NoHolders(s.buffers, m);
    NoHolders(s.surfaces, m);
    assert Holders(s.buffers[b := Some(m)], m) == {b};
  }

  lemma {:induction false} BufferEventCount(s: State, e: Event, m: nat)
    requires Closed(s) && Enabled(s, e) && m in s.maps && CountOk(s, m)
    requires e.CreateBuffer? || e.DestroyBuffer?
    ensures CountOk(Step(s, e), m)
  {
    if e.CreateBuffer? {
      SetHolder(s.buffers, e.buffer, e.mapping, m);
    } else {
      DropHolder(s.buffers, e.buffer, m);
    }
  }

  lemma {:induction false} AttachCount(s: State, u: nat, to: Option<nat>, m: nat)
    requires Closed(s) && Enabled(s, Attach(u, to)) && m in s.maps && CountOk(s, m)
    ensures CountOk(Step(s, Attach(u, to)), m)
  {
    SetHolder(s.surfaces, u, if to.Some? then s.buffers[to.value] else None, m);
    if to.Some? && s.buffers[to.value] == Some(m) { HolderCounts(s.buffers, to.value, m); }
    if s.surfaces[u] == Some(m) { HolderCounts(s.surfaces, u, m); }
  }

  lemma {:induction false} SurfaceEventCount(s: State, e: Event, m: nat)
    requires Closed(s) && Enabled(s, e) && m in s.maps && CountOk(s, m)
    requires e.CreateSurface? || e.Commit? || e.DestroySurface?
    ensures CountOk(Step(s, e), m)
  {
    if e.DestroySurface? {
      DropHolder(s.surfaces, e.surface, m);
    } else {
      SetHolder(s.surfaces, e.surface, None, m);
    }
  }

  lemma {:induction false} StepOwner(s: State, e: Event, m: nat)
    requires Closed(s) && Enabled(s, e) && m in s.maps && OwnerOk(s, m)
    ensures OwnerOk(Step(s, e), m)
  {
    var t := Step(s, e);
    if e.CreateBuffer? {
      assert Holders(t.buffers, m) == Holders(s.buffers, m);
    } else if e.DestroyBuffer? {
      assert Holders(t.buffers, m) == Holders(s.buffers, m) - {e.buffer};
      assert e.buffer in Holders(s.buffers, m) <==> s.buffers[e.buffer] == Some(m);
    } else {
      assert t.buffers == s.buffers && t.maps[m].resource == s.maps[m].resource;
    }
  }

  lemma {:induction false} StepMapping(s: State, e: Event, m: nat)
    requires Invariant(s) && Enabled(s, e) && m in Step(s, e).maps
    ensures CountOk(Step(s, e), m) && OwnerOk(Step(s, e), m)
  {
    if m !in s.maps {
      NewMapping(s, e.buffer, m);
    } else {
      StepOwner(s, e, m);
      match e
      case CreateBuffer(_, _) => BufferEventCount(s, e, m);
      case DestroyBuffer(_) => BufferEventCount(s, e, m);
      case Attach(u, to) => AttachCount(s, u, to, m);
      case _ => SurfaceEventCount(s, e, m);
    }
  }

  lemma {:induction false} StepKeeps(s: State, e: Event)
    requires Invariant(s) && Enabled(s, e)
    ensures Invariant(Step(s, e))
  {
    forall m | m in Step(s, e).maps
      ensures CountOk(Step(s, e), m) && OwnerOk(Step(s, e), m)
    {
      StepMapping(s, e, m);
    }
  }

  const Empty := State(map[], map[], map[], [])

  predicate Legal(es: seq<Event>)
    decreases |es|, 0
  {
    es != [] ==> Legal(es[..|es| - 1]) && Enabled(Run(es[..|es| - 1]), es[|es| - 1])
  }

  lemma {:induction false} StepClosed(s: State, e: Event)
    requires Closed(s) && Enabled(s, e)
    ensures Closed(Step(s, e))
  {
  }

  function Run(es: seq<Event>): (s: State)
    requires Legal(es)
    ensures Closed(s)
    decreases |es|, 1
  {
    if es == [] then Empty
    else
      var s := Run(es[..|es| - 1]);
      StepClosed(s, es[|es| - 1]);
      Step(s, es[|es| - 1])
  }

  lemma {:induction false} RunKeeps(es: seq<Event>)
    requires Legal(es)
    ensures Invariant(Run(es))
    decreases |es|
  {
    if es != [] {
      RunKeeps(es[..|es| - 1]);
      StepKeeps(Run(es[..|es| - 1]), es[|es| - 1]);
    }
  }

  /**
   * In every run the count of a mapping is its live owning buffer plus the
   * surfaces that hold it, and it is mapped exactly while that is not 0.
   */
  lemma {:induction false} RefcountConservation(es: seq<Event>, m: nat)
    requires Legal(es) && m in Run(es).maps
    ensures Run(es).maps[m].refcount == |Holders(Run(es).buffers, m)| + |Holders(Run(es).surfaces, m)|
    ensures |Holders(Run(es).buffers, m)| <= 1
    ensures Run(es).maps[m].mapped <==> Run(es).maps[m].refcount > 0
  {
    RunKeeps(es);
    var s := Run(es);
    assert CountOk(s, m) && OwnerOk(s, m);
  }

  /** From the events: the live wl_buffers with the mapping each was created with. */
  function BuffersOf(es: seq<Event>): Table {
    if es == [] then map[]
    else
      var before := BuffersOf(es[..|es| - 1]);
      match es[|es| - 1]
      case CreateBuffer(b, m) => before[b := m]
      case DestroyBuffer(b) => before - {b}
      case _ => before
  }

  /** And the live surfaces: each holds what was attached last, until it is committed. */
  function SurfacesOf(es: seq<Event>): Table {
    if es == [] then map[]
    else
      var before, buffers := SurfacesOf(es[..|es| - 1]), BuffersOf(es[..|es| - 1]);
      match es[|es| - 1]
      case CreateSurface(u) => before[u := None]
      case Attach(u, Some(b)) => before[u := if b in buffers then buffers[b] else None]
      case Attach(u, None) => before[u := None]
      case Commit(u) => before[u := None]
      case DestroySurface(u) => before - {u}
      case _ => before
  }

  lemma {:induction false} TablesInEveryRun(es: seq<Event>)
    requires Legal(es)
    ensures Run(es).buffers == BuffersOf(es) && Run(es).surfaces == SurfacesOf(es)
    decreases |es|
  {
    if es != [] {
      var front, e := es[..|es| - 1], es[|es| - 1];
      TablesInEveryRun(front);
      if e.Commit? && Run(front).surfaces[e.surface].None? {
        assert SurfacesOf(front)[e.surface := None] == SurfacesOf(front);
      }
    }
  }

  /** So the events alone say how often a mapping is referenced, and when it is unmapped. */
  lemma {:induction false} CountFromEvents(es: seq<Event>, m: nat)
    requires Legal(es) && m in Run(es).maps
    ensures Run(es).maps[m].refcount == |Holders(BuffersOf(es), m)| + |Holders(SurfacesOf(es), m)|
    ensures Run(es).maps[m].mapped <==> Holders(BuffersOf(es), m) != {} || Holders(SurfacesOf(es), m) != {}
  {
    RefcountConservation(es, m);
    TablesInEveryRun(es);
  }

  /**
   * Whatever the client destroys after an attach, the attached memory is
   * still mapped when the commit copies from it.
   */
  lemma {:induction false} AttachedStaysMapped(es: seq<Event>, u: nat)
    requires Legal(es) && u in Run(es).surfaces && Run(es).surfaces[u].Some?
    ensures Run(es).surfaces[u].value in Run(es).maps
    ensures Run(es).maps[Run(es).surfaces[u].value].mapped
  {
    RunKeeps(es);
    var s := Run(es);
    HolderCounts(s.surfaces, u, s.surfaces[u].value);
    assert CountOk(s, s.surfaces[u].value);
  }

  /** A commit releases the wl_buffer whose contents it took, exactly if the surface has contents and that buffer still exists. */
  lemma {:induction false} ReleaseReachesLiveBuffer(es: seq<Event>, u: nat)
    requires Legal(es) && u in Run(es).surfaces
    ensures var s := Run(es);
            var t := Step(s, Commit(u));
            if s.surfaces[u].None? || Holders(s.buffers, s.surfaces[u].value) == {} then t.released == s.released
            else exists b :: t.released == s.released + [b] && Holders(t.buffers, s.surfaces[u].value) == {b}
  {
    RunKeeps(es);
    var s := Run(es);
    if s.surfaces[u].Some? {
      var m := s.surfaces[u].value;
      assert OwnerOk(s, m);
    }
  }

  /** The same objects updated in place, as sommelier does it. */
  class Registry {
    var maps: map<nat, Mapping>
    var buffers: Table
    var surfaces: Table
    var released: seq<nat>

    ghost function View(): State
      reads this
    {
      State(maps, buffers, surfaces, released)
    }

    constructor ()
      ensures View() == Empty
    {
      maps, buffers, surfaces, released := map[], map[], map[], [];
    }

    /** sl_mmap_ref. */
    method MmapRef(m: nat)
      requires m in maps
      modifies this`maps
      ensures maps == Ref(old(maps), m)
    {
      maps := maps[m := maps[m].(refcount := maps[m].refcount + 1)];
    }

    /** sl_mmap_unref. */
    method MmapUnref(m: nat)
      requires m in maps
      modifies this`maps
      ensures maps == Unref(old(maps), m)
    {
      var before := maps[m].refcount;
      maps := maps[m := maps[m].(refcount := before - 1)];
      if before == 1 {
        maps := maps[m := maps[m].(mapped := false)];
      }
    }

    /** sl_host_shm_pool_create_host_buffer: the buffer owns the first reference. */
    method CreateBuffer(b: nat, m: Option<nat>)
      requires Enabled(View(), Event.CreateBuffer(b, m)) && Closed(View())
      modifies this
      ensures View() == Step(old(View()), Event.CreateBuffer(b, m))
    {
      buffers := buffers[b := m];
      if m.Some? {
        maps := maps[m.value := Mapping(1, true, None)];
        maps := maps[m.value := maps[m.value].(resource := Some(b))];
      }
    }

    /** The reference counting of sl_host_surface_attach. */
    method Attach(u: nat, to: Option<nat>)
      requires Enabled(View(), Event.Attach(u, to)) && Closed(View())
      modifies this
      ensures View() == Step(old(View()), Event.Attach(u, to))
    {
      if surfaces[u].Some? {
        MmapUnref(surfaces[u].value);
        surfaces := surfaces[u := None];
      }
      if to.Some? && buffers[to.value].Some? {
        MmapRef(buffers[to.value].value);
        surfaces := surfaces[u := buffers[to.value]];
      }
    }

    /** The end of sl_host_surface_commit. */
    method Commit(u: nat)
      requires Enabled(View(), Event.Commit(u)) && Closed(View())
      modifies this
      ensures View() == Step(old(View()), Event.Commit(u))
    {
      if surfaces[u].Some? {
        var m := surfaces[u].value;
        if maps[m].resource.Some? {
          released := released + [maps[m].resource.value];
        }
        MmapUnref(m);
        surfaces := surfaces[u := None];
      }
    }

    /** sl_destroy_host_buffer. */
    method DestroyBuffer(b: nat)
      requires Enabled(View(), Event.DestroyBuffer(b)) && Closed(View())
      modifies this
      ensures View() == Step(old(View()), Event.DestroyBuffer(b))
    {
      if buffers[b].Some? {
        var m := buffers[b].value;
        maps := maps[m := maps[m].(resource := None)];
        MmapUnref(m);
      }
      buffers := buffers - {b};
    }

    /** The reference counting of sl_destroy_host_surface. */
    method DestroySurface(u: nat)
      requires Enabled(View(), Event.DestroySurface(u)) && Closed(View())
      modifies this
      ensures View() == Step(old(View()), Event.DestroySurface(u))
    {
      if surfaces[u].Some? {
        MmapUnref(surfaces[u].value);
      }
      surfaces := surfaces - {u};
    }
  }
}

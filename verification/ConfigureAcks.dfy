/**
 * The configure/ack protocol of a window (sommelier-window.cc): a pending
 * configuration, the next one behind it, and the serials acknowledged with
 * xdg_surface.ack_configure.
 */
module ConfigureAcks {
  import opened Machine

  datatype Size = Size(w: int, h: int)

  /** The geometry a configure asks for: the X position only when the client left it to us. */
  datatype Geometry = Geometry(position: Option<(int, int)>, size: Size)

  /** sl_config: a serial (0 means none), the masked values and the number of states. */
  datatype Config = Config(serial: nat, change: Option<Geometry>, states: nat)

  const NoConfig := Config(0, None, 0)

  /** An acknowledgement sent for contents: what the configure asked for, the contents, and the window around them. */
  datatype Ack = Ack(serial: nat, change: Option<Geometry>, contents: Option<Size>, outer: Size)

  /**
   * The window fields of sl_window, the serials received and acknowledged so
   * far, and the acknowledgements that were sent for contents.
   */
  datatype State = State(
    managed: bool, x: int, y: int, size: Size, border: int,
    pending: Config, next: Config, received: seq<nat>, acked: seq<nat>, matched: seq<Ack>)

  datatype Event =
    | ToplevelConfigure(change: Option<Geometry>, states: nat)
    | SurfaceConfigure(serial: nat, shown: Option<Size>)
    | Attach(contents: Size)
    | ConfigureRequest(toplevel: bool, x: int, y: int, size: Size)

  function Initial(managed: bool, x: int, y: int, size: Size, border: int): State {
    State(managed, x, y, size, border, NoConfig, NoConfig, [], [], [])
  }

  /** The window with its borders, which the contents have to match. */
  function OuterSize(s: State): Size {
    Size(s.size.w + 2 * s.border, s.size.h + 2 * s.border)
  }

  /** Only a managed window is asked for a geometry. */
  predicate Sound(s: State) {
    s.next.change.Some? ==> s.managed
  }

  /** sl_configure_window; its two assertions are the preconditions. */
  function ConfigureWindow(s: State): (t: State)
    requires s.pending.serial == 0 && (s.next.change.Some? ==> s.managed)
    ensures t.managed == s.managed
  {
    var t := if s.next.change.None? then s
             else
               var g := s.next.change.value;
               s.(size := g.size, border := 0,
                  x := if g.position.Some? then g.position.value.0 else s.x,
                  y := if g.position.Some? then g.position.value.1 else s.y);
    t.(pending := s.next, next := NoConfig)
  }

  /** The contents do not match the window yet, so the pending configure has to wait. */
  predicate MustWait(s: State, contents: Option<Size>) {
    s.pending.serial == 0 || (s.managed && contents.Some? && contents.value != OuterSize(s))
  }

  /** sl_process_pending_configure_acks when it acknowledges. */
  function AckPending(s: State, contents: Option<Size>): (t: State)
    requires s.pending.serial != 0 && Sound(s)
    ensures Sound(t) && t.managed == s.managed
  {
    var t := s.(acked := s.acked + [s.pending.serial], pending := s.pending.(serial := 0),
                matched := s.matched + [Ack(s.pending.serial, s.pending.change, contents, OuterSize(s))]);
    if s.next.serial != 0 then ConfigureWindow(t) else t
  }

  /** How many configures are waiting for an acknowledgement. */
  function Waiting(s: State): nat {
    (if s.pending.serial != 0 then 1 else 0) + (if s.next.serial != 0 then 1 else 0)
  }

  /** The loop of sl_host_surface_attach. */
  function AckAll(s: State, contents: Size): (t: State)
    requires Sound(s)
    ensures Sound(t) && t.managed == s.managed
    decreases Waiting(s)
  {
    if MustWait(s, Some(contents)) then s else AckAll(AckPending(s, Some(contents)), contents)
  }

  /** sl_internal_xdg_surface_configure. */
  function OnConfigure(s: State, serial: nat, contents: Option<Size>): (t: State)
    requires Sound(s)
    ensures Sound(t) && t.managed == s.managed
  {
    var t := s.(received := s.received + [serial], next := s.next.(serial := serial));
    if t.pending.serial != 0 then t
    else
      var u := ConfigureWindow(t);
      if MustWait(u, contents) then u else AckPending(u, contents)
  }

  /** The acknowledgements of sl_handle_configure_request. */
  function AckBoth(s: State): State {
    var t := if s.pending.serial != 0 then s.(acked := s.acked + [s.pending.serial], pending := NoConfig) else s;
    if t.next.serial != 0 then t.(acked := t.acked + [t.next.serial], next := NoConfig) else t
  }

  function Step(s: State, e: Event): (t: State)
    requires Sound(s)
    ensures Sound(t) && t.managed == s.managed
  {
    match e
    case ToplevelConfigure(change, states) =>
      if !s.managed then s
      else s.(next := s.next.(change := if change.Some? then change else s.next.change, states := states))
    case SurfaceConfigure(serial, contents) => OnConfigure(s, serial, contents)
    case Attach(contents) => AckAll(s, contents)
    case ConfigureRequest(toplevel, x, y, size) =>
      if !s.managed then s
      else (if toplevel then AckBoth(s) else s).(x := x, y := y, size := size, border := 0)
  }

  predicate Enabled(e: Event) {
    e.SurfaceConfigure? ==> e.serial != 0
  }

  // ----- the invariant -----

  /** Serials received and not yet acknowledged or superseded, oldest first. */
  function Unacked(s: State): seq<nat> {
    (if s.pending.serial != 0 then [s.pending.serial] else []) + (if s.next.serial != 0 then [s.next.serial] else [])
  }

  /** Everything acknowledged, then what still waits. */
  function Line(s: State): seq<nat> {
    s.acked + Unacked(s)
  }

  /** `a` is the subsequence of `b` at the strictly increasing positions `at`. */
  predicate PickedAt(a: seq<nat>, b: seq<nat>, at: seq<nat>) {
    && |at| == |a|
    && (forall i :: 0 <= i < |at| ==> at[i] < |b| && a[i] == b[at[i]])
    && (forall i, j :: 0 <= i < j < |at| ==> at[i] < at[j])
  }

  /** `a` picks serials of `b` in order, and the newest one is the last it picks. */
  ghost predicate PicksNewest(a: seq<nat>, b: seq<nat>) {
    exists at: seq<nat> :: PicksNewestAt(a, b, at)
  }

  predicate PicksNewestAt(a: seq<nat>, b: seq<nat>, at: seq<nat>) {
    PickedAt(a, b, at) && (b != [] ==> at != [] && at[|at| - 1] == |b| - 1)
  }

  ghost predicate Invariant(s: State) {
    && Sound(s)
    && PicksNewest(Line(s), s.received)
    && (s.next.serial != 0 ==> s.pending.serial != 0)
  }

  lemma {:induction false} PickFront(a: seq<nat>, b: seq<nat>, at: seq<nat>)
    requires PickedAt(a, b, at) && a != []
    ensures PickedAt(a[..|a| - 1], b, at[..|at| - 1])
  {
  }

  lemma {:induction false} PickSnoc(a: seq<nat>, b: seq<nat>, at: seq<nat>, x: nat)
    requires PickedAt(a, b, at)
    ensures PickedAt(a + [x], b + [x], at + [|b|])
  {
    var at' := at + [|b|];
    forall i | 0 <= i < |at'|
      ensures at'[i] < |b + [x]| && (a + [x])[i] == (b + [x])[at'[i]]
    {
      if i < |at| {
        assert at[i] < |b| && a[i] == b[at[i]];
      }
    }
  }

  /** A new serial goes to the end of the line, possibly in the place of the last one. */
  lemma {:induction false} PickNew(a: seq<nat>, b: seq<nat>, x: nat, replaceLast: bool)
    requires PicksNewest(a, b) && (replaceLast ==> a != [])
    ensures PicksNewest((if replaceLast then a[..|a| - 1] else a) + [x], b + [x])
  {
    var at: seq<nat> :| PicksNewestAt(a, b, at);
    if replaceLast {
      PickFront(a, b, at);
      PickSnoc(a[..|a| - 1], b, at[..|at| - 1], x);
      assert PicksNewestAt(a[..|a| - 1] + [x], b + [x], at[..|at| - 1] + [|b|]);
    } else {
      PickSnoc(a, b, at, x);
      assert PicksNewestAt(a + [x], b + [x], at + [|b|]);
    }
  }

  lemma {:induction false} ConfigureKeeps(s: State, serial: nat, contents: Option<Size>)
    requires Invariant(s) && serial != 0
    ensures Invariant(OnConfigure(s, serial, contents))
  {
    var t := OnConfigure(s, serial, contents);
    if s.next.serial != 0 {
      PickNew(Line(s), s.received, serial, true);
      assert Line(s)[..|Line(s)| - 1] + [serial] == Line(t);
    } else {
      PickNew(Line(s), s.received, serial, false);
      assert Line(s) + [serial] == Line(t);
    }
  }

  lemma {:induction false} AckPendingKeeps(s: State, contents: Option<Size>)
    requires Invariant(s) && s.pending.serial != 0
    ensures Invariant(AckPending(s, contents)) && Line(AckPending(s, contents)) == Line(s)
    ensures AckPending(s, contents).received == s.received && Waiting(AckPending(s, contents)) < Waiting(s)
  {
    assert Line(AckPending(s, contents)) == Line(s);
  }

  lemma {:induction false} AckAllKeeps(s: State, contents: Size)
    requires Invariant(s)
    ensures Invariant(AckAll(s, contents)) && Line(AckAll(s, contents)) == Line(s)
    ensures MustWait(AckAll(s, contents), Some(contents))
    decreases Waiting(s)
  {
    if !MustWait(s, Some(contents)) {
      AckPendingKeeps(s, Some(contents));
      AckAllKeeps(AckPending(s, Some(contents)), contents);
    }
  }

  lemma {:induction false} AckBothKeeps(s: State)
    requires Invariant(s)
    ensures Invariant(AckBoth(s)) && AckBoth(s).acked == Line(s) && Unacked(AckBoth(s)) == []
  {
    assert Line(AckBoth(s)) == Line(s);
  }

  lemma {:induction false} StepKeeps(s: State, e: Event)
    requires Invariant(s) && Enabled(e)
    ensures Invariant(Step(s, e))
  {
    match e
    case ToplevelConfigure(change, states) => assert Line(Step(s, e)) == Line(s);
    case SurfaceConfigure(serial, contents) => ConfigureKeeps(s, serial, contents);
    case Attach(contents) => AckAllKeeps(s, contents);
    case ConfigureRequest(toplevel, x, y, size) =>
      AckBothKeeps(s);
      assert Line(Step(s, e)) == Line(s);
  }

  // ----- whole runs -----

  function Run(s: State, es: seq<Event>): (t: State)
    requires Sound(s)
    ensures Sound(t) && t.managed == s.managed
    decreases |es|
  {
    if es == [] then s else Step(Run(s, es[..|es| - 1]), es[|es| - 1])
  }

  lemma {:induction false} RunKeeps(managed: bool, x: int, y: int, size: Size, border: int, es: seq<Event>)
    requires forall e :: e in es ==> Enabled(e)
    ensures Invariant(Run(Initial(managed, x, y, size, border), es))
    decreases |es|
  {
    var s := Initial(managed, x, y, size, border);
    if es == [] {
      assert Line(s) == [];
      assert PicksNewestAt(Line(s), s.received, []);
    } else {
      RunKeeps(managed, x, y, size, border, es[..|es| - 1]);
      StepKeeps(Run(s, es[..|es| - 1]), es[|es| - 1]);
    }
  }

  /**
   * In every run the acknowledged serials are received ones, in the order
   * received and each position at most once.
   */
  lemma {:induction false} AcksInOrder(managed: bool, x: int, y: int, size: Size, border: int, es: seq<Event>) returns (at: seq<nat>)
    requires forall e :: e in es ==> Enabled(e)
    ensures var s := Run(Initial(managed, x, y, size, border), es); PickedAt(s.acked, s.received, at)
  {
    RunKeeps(managed, x, y, size, border, es);
    var s := Run(Initial(managed, x, y, size, border), es);
    var all: seq<nat> :| PicksNewestAt(Line(s), s.received, all);
    at := all[..|s.acked|];
    assert forall i :: 0 <= i < |s.acked| ==> Line(s)[i] == s.acked[i];
  }

  /** The newest serial received is acknowledged, pending or next; nothing else can be newer. */
  lemma {:induction false} NewestIsHeld(managed: bool, x: int, y: int, size: Size, border: int, es: seq<Event>)
    requires forall e :: e in es ==> Enabled(e)
    requires Run(Initial(managed, x, y, size, border), es).received != []
    ensures var s := Run(Initial(managed, x, y, size, border), es);
            var newest := s.received[|s.received| - 1];
            if s.next.serial != 0 then s.next.serial == newest && s.pending.serial != 0
            else if s.pending.serial != 0 then s.pending.serial == newest
            else s.acked != [] && s.acked[|s.acked| - 1] == newest
  {
    RunKeeps(managed, x, y, size, border, es);
    var s := Run(Initial(managed, x, y, size, border), es);
    var at: seq<nat> :| PicksNewestAt(Line(s), s.received, at);
    assert Line(s)[|Line(s)| - 1] == s.received[|s.received| - 1];
  }

  /**
   * After an attach nothing is left that could be acknowledged: all serials
   * are, or the managed window still differs from the contents.
   */
  lemma {:induction false} AttachAcksAllItCan(managed: bool, x: int, y: int, size: Size, border: int, es: seq<Event>, contents: Size)
    requires forall e :: e in es ==> Enabled(e)
    ensures var s := Run(Initial(managed, x, y, size, border), es);
            var t := Step(s, Attach(contents));
            Unacked(t) == [] || (t.managed && OuterSize(t) != contents)
  {
    RunKeeps(managed, x, y, size, border, es);
    AckAllKeeps(Run(Initial(managed, x, y, size, border), es), contents);
  }

  /** A configure request of the X client leaves nothing unacknowledged. */
  lemma {:induction false} RequestAcksEverything(managed: bool, x: int, y: int, size: Size, border: int, es: seq<Event>, e: Event)
    requires forall e :: e in es ==> Enabled(e)
    requires e.ConfigureRequest? && e.toplevel && managed
    ensures var s := Run(Initial(managed, x, y, size, border), es);
            Unacked(Step(s, e)) == [] && Step(s, e).acked == Line(s)
  {
    RunKeeps(managed, x, y, size, border, es);
    AckBothKeeps(Run(Initial(managed, x, y, size, border), es));
  }

  // ----- geometry -----

  /** The geometry of a configure that waits for its acknowledgement has been applied to the window. */
  predicate InForce(s: State) {
    s.pending.serial != 0 && s.pending.change.Some? ==>
      var g := s.pending.change.value;
      s.size == g.size && s.border == 0 && (g.position.Some? ==> g.position.value == (s.x, s.y))
  }

  /**
   * A managed window with a surface is acknowledged only when the contents
   * have its outer size, and that is the size asked for, if one was.
   */
  predicate AckMatches(a: Ack, managed: bool) {
    && (managed && a.contents.Some? ==> a.contents.value == a.outer)
    && (a.change.Some? ==> a.outer == a.change.value.size)
  }

  predicate AllMatch(s: State) {
    forall i :: 0 <= i < |s.matched| ==> AckMatches(s.matched[i], s.managed)
  }

  /** Toplevel windows are asked for geometries, and their X requests find the toplevel; popups are not asked. */
  predicate Plays(e: Event, toplevel: bool) {
    (e.ConfigureRequest? ==> e.toplevel == toplevel) && (e.ToplevelConfigure? ==> toplevel)
  }

  /** What every event keeps, for a window in one role. */
  predicate Matching(s: State, toplevel: bool) {
    && Sound(s) && InForce(s) && AllMatch(s)
    && (!toplevel ==> s.pending.change.None? && s.next.change.None?)
  }

  lemma {:induction false} AckPendingMatches(s: State, contents: Option<Size>, toplevel: bool)
    requires Matching(s, toplevel) && !MustWait(s, contents)
    ensures Matching(AckPending(s, contents), toplevel)
  {
    assert AckMatches(Ack(s.pending.serial, s.pending.change, contents, OuterSize(s)), s.managed);
  }

  lemma {:induction false} AckAllMatches(s: State, contents: Size, toplevel: bool)
    requires Matching(s, toplevel)
    ensures Matching(AckAll(s, contents), toplevel)
    decreases Waiting(s)
  {
    if !MustWait(s, Some(contents)) {
      AckPendingMatches(s, Some(contents), toplevel);
      AckAllMatches(AckPending(s, Some(contents)), contents, toplevel);
    }
  }

  lemma {:induction false} ConfigureMatches(s: State, serial: nat, contents: Option<Size>, toplevel: bool)
    requires Matching(s, toplevel)
    ensures Matching(OnConfigure(s, serial, contents), toplevel)
  {
    var t := s.(received := s.received + [serial], next := s.next.(serial := serial));
    if t.pending.serial == 0 {
      var u := ConfigureWindow(t);
      assert Matching(u, toplevel);
      if !MustWait(u, contents) {
        AckPendingMatches(u, contents, toplevel);
      }
    }
  }

  /**
   * In every run of a window in one role, every acknowledgement sent for
   * contents, at an attach or inside the configure, was sent for contents of
   * exactly the size of the window and of the size the configure asked for.
   */
  lemma {:induction false} EveryAckMatches(managed: bool, x: int, y: int, size: Size, border: int, es: seq<Event>, toplevel: bool)
    requires forall e :: e in es ==> Plays(e, toplevel)
    ensures Matching(Run(Initial(managed, x, y, size, border), es), toplevel)
    decreases |es|
  {
    if es != [] {
      var front, e := es[..|es| - 1], es[|es| - 1];
      EveryAckMatches(managed, x, y, size, border, front, toplevel);
      var s := Run(Initial(managed, x, y, size, border), front);
      assert e in es;
      match e
      case ToplevelConfigure(_, _) =>
      case SurfaceConfigure(serial, contents) => ConfigureMatches(s, serial, contents, toplevel);
      case Attach(contents) => AckAllMatches(s, contents, toplevel);
      case ConfigureRequest(_, _, _, _) =>
    }
  }

  /** The same, for one acknowledgement. */
  lemma {:induction false} AckMeansMatch(managed: bool, x: int, y: int, size: Size, border: int, es: seq<Event>, toplevel: bool, i: nat)
    requires forall e :: e in es ==> Plays(e, toplevel)
    requires i < |Run(Initial(managed, x, y, size, border), es).matched|
    ensures var a := Run(Initial(managed, x, y, size, border), es).matched[i];
            managed && a.contents.Some? && a.change.Some? ==> a.contents.value == a.change.value.size
  {
    EveryAckMatches(managed, x, y, size, border, es, toplevel);
    var s := Run(Initial(managed, x, y, size, border), es);
    assert AckMatches(s.matched[i], s.managed);
  }

  /** Every acknowledgement is recorded with its contents. */
  predicate Recorded(s: State) {
    |s.matched| == |s.acked| && forall j :: 0 <= j < |s.acked| ==> s.matched[j].serial == s.acked[j]
  }

  lemma {:induction false} AckAllRecords(s: State, contents: Size)
    requires Sound(s) && Recorded(s)
    ensures Recorded(AckAll(s, contents))
    decreases Waiting(s)
  {
    if !MustWait(s, Some(contents)) {
      AckAllRecords(AckPending(s, Some(contents)), contents);
    }
  }

  /** Without requests of the X client, no serial is acknowledged in any other way. */
  lemma {:induction false} NoOtherAcks(managed: bool, x: int, y: int, size: Size, border: int, es: seq<Event>)
    requires forall e :: e in es ==> !e.ConfigureRequest?
    ensures Recorded(Run(Initial(managed, x, y, size, border), es))
    decreases |es|
  {
    if es != [] {
      var front, e := es[..|es| - 1], es[|es| - 1];
      NoOtherAcks(managed, x, y, size, border, front);
      assert e in es;
      if e.Attach? {
        AckAllRecords(Run(Initial(managed, x, y, size, border), front), e.contents);
      }
    }
  }

  // ----- which geometry is applied, and which is acknowledged -----

  /** The geometry of the window. */
  datatype Frame = Frame(x: int, y: int, size: Size, border: int)

  function FrameOf(s: State): Frame {
    Frame(s.x, s.y, s.size, s.border)
  }

  function Outer(f: Frame): Size {
    Size(f.size.w + 2 * f.border, f.size.h + 2 * f.border)
  }

  /** A geometry, applied: the size is the one asked for and the border goes; the position only if it is ours. */
  predicate AppliedTo(f: Frame, change: Option<Geometry>, g: Frame) {
    match change
    case None => g == f
    case Some(c) =>
      g.size == c.size && g.border == 0 && (g.x, g.y) == if c.position.Some? then c.position.value else (f.x, f.y)
  }

  /** Contents that let a configure be acknowledged. */
  predicate Fits(managed: bool, contents: Option<Size>, f: Frame) {
    managed && contents.Some? ==> contents.value == Outer(f)
  }

  /** What the events ask for, on top of `c`: the last geometry, the last states, the last serial. */
  function AskedBy(c: Config, es: seq<Event>): Config {
    if es == [] then c
    else
      var before := AskedBy(c, es[..|es| - 1]);
      match es[|es| - 1]
      case ToplevelConfigure(Some(g), states) => Config(before.serial, Some(g), states)
      case ToplevelConfigure(None, states) => Config(before.serial, before.change, states)
      case SurfaceConfigure(serial, _) => Config(serial, before.change, before.states)
      case _ => before
  }

  /**
   * What was asked for is taken: by a serial when nothing is pending, by an
   * acknowledgement when a serial waits behind the pending one, by a request
   * of the X client.
   */
  predicate Taken(s: State, e: Event) {
    match e
    case ToplevelConfigure(_, _) => false
    case SurfaceConfigure(_, _) => s.pending.serial == 0
    case Attach(contents) => |Unacked(s)| == 2 && Fits(s.managed, Some(contents), FrameOf(s))
    case ConfigureRequest(toplevel, _, _, _) => toplevel && s.managed && s.next.serial != 0
  }

  /** In no step of the run is it taken. */
  predicate NeverTaken(s: State, es: seq<Event>)
    requires Sound(s)
  {
    es == [] || (NeverTaken(s, es[..|es| - 1]) && !Taken(Run(s, es[..|es| - 1]), es[|es| - 1]))
  }

  /** One configure is pending, and possibly one behind it. */
  predicate InLine(s: State) {
    Sound(s) && (s.next.serial != 0 ==> s.pending.serial != 0)
  }

  function SerialsOf(acks: seq<Ack>): seq<nat> {
    if acks == [] then [] else SerialsOf(acks[..|acks| - 1]) + [acks[|acks| - 1].serial]
  }

  /** The acknowledgements between two states, each recorded with its contents. */
  predicate Sent(s: State, t: State, acks: seq<Ack>) {
    t.matched == s.matched + acks && t.acked == s.acked + SerialsOf(acks)
  }

  /**
   * A configure is taken up, with a surface that shows `contents`: the window
   * gets its geometry, and it is acknowledged if the contents fit, else pending.
   */
  predicate TakesUp(s: State, c: Config, contents: Option<Size>, t: State) {
    && AppliedTo(FrameOf(s), c.change, FrameOf(t)) && t.next == NoConfig
    && (if Fits(s.managed, contents, FrameOf(t))
        then t.pending.serial == 0 && Sent(s, t, [Ack(c.serial, c.change, contents, Outer(FrameOf(t)))])
        else t.pending == c && Sent(s, t, []))
  }

  lemma {:induction false} SerialOf(a: Ack)
    ensures SerialsOf([a]) == [a.serial] && SerialsOf([]) == []
  {
    assert [a][..0] == [];
  }

  lemma {:induction false} NothingSent(s: State, t: State)
    requires t.matched == s.matched && t.acked == s.acked
    ensures Sent(s, t, [])
  {
    assert s.matched + [] == s.matched && s.acked + SerialsOf([]) == s.acked;
  }

  /** A serial that comes when nothing is pending. */
  lemma {:induction false} ConfigureTakesUp(s: State, serial: nat, contents: Option<Size>)
    requires InLine(s) && s.pending.serial == 0 && serial != 0
    ensures TakesUp(s, s.next.(serial := serial), contents, OnConfigure(s, serial, contents))
    ensures OnConfigure(s, serial, contents).received == s.received + [serial]
  {
    var u := ConfigureWindow(s.(received := s.received + [serial], next := s.next.(serial := serial)));
    SerialOf(Ack(serial, s.next.change, contents, Outer(FrameOf(u))));
    NothingSent(s, u);
  }

  /** A serial that comes when one is pending only waits. */
  lemma {:induction false} ConfigureWaits(s: State, serial: nat, contents: Option<Size>)
    requires Sound(s) && s.pending.serial != 0
    ensures var t := OnConfigure(s, serial, contents);
            t == s.(received := s.received + [serial], next := AskedBy(s.next, [SurfaceConfigure(serial, contents)]))
  {
    var e := SurfaceConfigure(serial, contents);
    assert [e][..0] == [];
  }

  /** An attach whose contents do not fit, or with nothing to acknowledge, changes nothing. */
  lemma {:induction false} AttachWaits(s: State, contents: Size)
    requires Sound(s) && (s.pending.serial == 0 || !Fits(s.managed, Some(contents), FrameOf(s)))
    ensures AckAll(s, contents) == s
  {
  }

  /** Otherwise the pending configure is acknowledged and one that waits behind it is taken up. */
  lemma {:induction false} AttachTakesUp(s: State, contents: Size) returns (u: State)
    requires InLine(s) && s.pending.serial != 0 && Fits(s.managed, Some(contents), FrameOf(s))
    ensures FrameOf(u) == FrameOf(s) && u.next == s.next && u.pending.serial == 0 && u.managed == s.managed
    ensures Sent(s, u, [Ack(s.pending.serial, s.pending.change, Some(contents), Outer(FrameOf(s)))])
    ensures s.next.serial == 0 ==> AckAll(s, contents) == u
    ensures s.next.serial != 0 ==> TakesUp(u, s.next, Some(contents), AckAll(s, contents))
    ensures AckAll(s, contents).received == s.received
  {
    var a := Ack(s.pending.serial, s.pending.change, Some(contents), Outer(FrameOf(s)));
    u := s.(acked := s.acked + [a.serial], pending := s.pending.(serial := 0), matched := s.matched + [a]);
    SerialOf(a);
    if s.next.serial != 0 {
      var v := ConfigureWindow(u);
      assert AckPending(s, Some(contents)) == v && AckAll(s, contents) == AckAll(v, contents);
      SerialOf(Ack(v.pending.serial, v.pending.change, Some(contents), Outer(FrameOf(v))));
      if Fits(v.managed, Some(contents), FrameOf(v)) {
        AttachWaits(AckPending(v, Some(contents)), contents);
      } else {
        NothingSent(u, v);
        AttachWaits(v, contents);
      }
    } else {
      AttachWaits(u, contents);
    }
  }

  /** A request of the X client sets the geometry of a managed window; a toplevel's acknowledges all that waits. */
  lemma {:induction false} RequestSets(s: State, toplevel: bool, x: int, y: int, size: Size)
    requires Sound(s)
    ensures var t := Step(s, ConfigureRequest(toplevel, x, y, size));
            && FrameOf(t) == (if s.managed then Frame(x, y, size, 0) else FrameOf(s))
            && t.acked == s.acked + (if s.managed && toplevel then Unacked(s) else [])
            && Unacked(t) == (if s.managed && toplevel then [] else Unacked(s))
            && t.matched == s.matched && t.received == s.received
            && t.next == (if s.managed && toplevel && s.next.serial != 0 then NoConfig else s.next)
  {
    assert s.acked + [] == s.acked;
    var t := AckBoth(s);
    assert t.acked == s.acked + Unacked(s);
  }

  lemma {:induction false} StepAsks(s: State, e: Event)
    requires InLine(s) && s.managed && Enabled(e)
    ensures InLine(Step(s, e))
    ensures !Taken(s, e) ==> Step(s, e).next == AskedBy(s.next, [e])
    ensures !Taken(s, e) && !e.ConfigureRequest? ==> FrameOf(Step(s, e)) == FrameOf(s)
    ensures Taken(s, e) ==> Step(s, e).next == NoConfig
  {
    assert [e][..0] == [];
    match e
    case ToplevelConfigure(_, _) =>
    case SurfaceConfigure(serial, contents) =>
      if s.pending.serial == 0 {
        ConfigureTakesUp(s, serial, contents);
      } else {
        ConfigureWaits(s, serial, contents);
      }
    case Attach(contents) =>
      if s.pending.serial == 0 || !Fits(s.managed, Some(contents), FrameOf(s)) {
        AttachWaits(s, contents);
      } else {
        var _ := AttachTakesUp(s, contents);
      }
    case ConfigureRequest(toplevel, x, y, size) => RequestSets(s, toplevel, x, y, size);
  }

  /** Until it is taken, what a managed window is asked for is what the events say, and its geometry is left alone. */
  lemma {:induction false} AskedSince(s: State, es: seq<Event>)
    requires InLine(s) && s.managed && (forall e :: e in es ==> Enabled(e)) && NeverTaken(s, es)
    ensures InLine(Run(s, es)) && Run(s, es).next == AskedBy(s.next, es)
    ensures (forall e :: e in es ==> !e.ConfigureRequest?) ==> FrameOf(Run(s, es)) == FrameOf(s)
    decreases |es|
  {
    if es != [] {
      var front, e := es[..|es| - 1], es[|es| - 1];
      AskedSince(s, front);
      assert e in es && [e][..0] == [];
      StepAsks(Run(s, front), e);
    }
  }

  lemma {:induction false} RunInLine(managed: bool, x: int, y: int, size: Size, border: int, es: seq<Event>)
    requires forall e :: e in es ==> Enabled(e)
    ensures InLine(Run(Initial(managed, x, y, size, border), es))
  {
    RunKeeps(managed, x, y, size, border, es);
  }

  /** The events since what was asked for was last taken. */
  function SinceTaken(s: State, es: seq<Event>): seq<Event>
    requires Sound(s)
  {
    if es == [] then []
    else
      var front, e := es[..|es| - 1], es[|es| - 1];
      if Taken(Run(s, front), e) then [] else SinceTaken(s, front) + [e]
  }

  /** In every run of a managed window, what it is asked for is what those events say. */
  lemma {:induction false} AskedInEveryRun(x: int, y: int, size: Size, border: int, es: seq<Event>)
    requires forall e :: e in es ==> Enabled(e)
    ensures var s := Initial(true, x, y, size, border); Run(s, es).next == AskedBy(NoConfig, SinceTaken(s, es))
    decreases |es|
  {
    if es != [] {
      var s, front, e := Initial(true, x, y, size, border), es[..|es| - 1], es[|es| - 1];
      AskedInEveryRun(x, y, size, border, front);
      RunInLine(true, x, y, size, border, front);
      assert e in es && [e][..0] == [];
      StepAsks(Run(s, front), e);
      assert (SinceTaken(s, front) + [e])[..|SinceTaken(s, front)|] == SinceTaken(s, front);
    }
  }

  /**
   * In every run of a managed window: when nothing is pending, a geometry and
   * the serial that follows it are applied at once. The serial is acknowledged
   * with that geometry if the surface shows nothing yet or has its size, and is
   * pending with it otherwise.
   */
  lemma {:induction false} GeometryApplied(x: int, y: int, size: Size, border: int, es: seq<Event>,
                                           g: Geometry, states: nat, serial: nat, contents: Option<Size>)
    requires (forall e :: e in es ==> Enabled(e)) && serial != 0
    requires Run(Initial(true, x, y, size, border), es).pending.serial == 0
    ensures var s := Run(Initial(true, x, y, size, border), es);
            var t := Step(Step(s, ToplevelConfigure(Some(g), states)), SurfaceConfigure(serial, contents));
            && AppliedTo(FrameOf(s), Some(g), FrameOf(t))
            && (if contents == None || contents == Some(g.size)
                then Unacked(t) == [] && Sent(s, t, [Ack(serial, Some(g), contents, g.size)])
                else Sent(s, t, []) && t.pending == Config(serial, Some(g), states))
  {
    RunInLine(true, x, y, size, border, es);
    var s := Run(Initial(true, x, y, size, border), es);
    ConfigureTakesUp(Step(s, ToplevelConfigure(Some(g), states)), serial, contents);
  }

  /** When one is pending they wait for contents that fit the window as it is. */
  lemma {:induction false} GeometryWaits(s: State, g: Geometry, states: nat,
                                         serial: nat, shown: Option<Size>, contents: Size)
    requires InLine(s) && s.managed && s.pending.serial != 0 && serial != 0 && contents == OuterSize(s)
    ensures var u := Step(Step(s, ToplevelConfigure(Some(g), states)), SurfaceConfigure(serial, shown));
            var t := Step(u, Attach(contents));
            var first := Ack(s.pending.serial, s.pending.change, Some(contents), contents);
            && FrameOf(u) == FrameOf(s) && u.pending == s.pending && Sent(s, u, [])
            && AppliedTo(FrameOf(s), Some(g), FrameOf(t))
            && (if contents == g.size
                then Unacked(t) == [] && Sent(s, t, [first, Ack(serial, Some(g), Some(contents), g.size)])
                else t.pending == Config(serial, Some(g), states) && Sent(s, t, [first]))
  {
    var u := Step(Step(s, ToplevelConfigure(Some(g), states)), SurfaceConfigure(serial, shown));
    NothingSent(s, u);
    var v := AttachTakesUp(u, contents);
    var t := Step(u, Attach(contents));
    var first := Ack(s.pending.serial, s.pending.change, Some(contents), contents);
    var second := Ack(serial, Some(g), Some(contents), g.size);
    SerialOf(first);
    SerialOf(second);
    assert [first, second][..1] == [first];
    if contents == g.size {
      assert t.matched == s.matched + [first] + [second];
      assert t.acked == s.acked + [first.serial] + [second.serial];
    } else {
      assert s.matched + [first] + [] == s.matched + [first];
    }
  }

  /** The last geometry the events ask for, or `g` when they ask for none. */
  function LastGeometry(g: Option<Geometry>, es: seq<Event>): Option<Geometry> {
    if es == [] then g
    else if es[|es| - 1].ToplevelConfigure? && es[|es| - 1].change.Some? then es[|es| - 1].change
    else LastGeometry(g, es[..|es| - 1])
  }

  lemma {:induction false} AskedGeometry(c: Config, es: seq<Event>)
    ensures AskedBy(c, es).change == LastGeometry(c.change, es)
  {
    if es != [] {
      AskedGeometry(c, es[..|es| - 1]);
    }
  }

  /** The acknowledgement that was recorded last. */
  function NewestAck(s: State): Option<Ack> {
    if s.matched == [] then None else Some(s.matched[|s.matched| - 1])
  }

  /**
   * A serial that waits behind the pending one while other events come, until
   * an attach takes it up, or a later one in its place: the geometry applied,
   * and acknowledged, is the last one asked for. It is the one asked for before
   * the serial came if and only if the events in between ask for no other.
   */
  lemma {:induction false} WaitingGeometry(s: State, serial: nat, shown: Option<Size>, es: seq<Event>, contents: Size)
    requires InLine(s) && s.managed && s.pending.serial != 0 && serial != 0
    requires forall e :: e in es ==> Enabled(e)
    requires NeverTaken(Step(s, SurfaceConfigure(serial, shown)), es)
    requires Taken(Run(Step(s, SurfaceConfigure(serial, shown)), es), Attach(contents))
    ensures var u := Run(Step(s, SurfaceConfigure(serial, shown)), es);
            var t := Step(u, Attach(contents));
            var g := LastGeometry(s.next.change, es);
            && AppliedTo(FrameOf(u), g, FrameOf(t))
            && (if contents == Outer(FrameOf(t))
                then NewestAck(t) == Some(Ack(u.next.serial, g, Some(contents), contents))
                else t.pending == u.next && u.next.change == g)
            && (u.next.change == s.next.change <==> LastGeometry(s.next.change, es) == s.next.change)
  {
    var w := Step(s, SurfaceConfigure(serial, shown));
    StepAsks(s, SurfaceConfigure(serial, shown));
    ConfigureWaits(s, serial, shown);
    assert [SurfaceConfigure(serial, shown)][..0] == [];
    AskedSince(w, es);
    AskedGeometry(w.next, es);
    var _ := AttachTakesUp(Run(w, es), contents);
  }

  /**
   * A geometry that comes after the serial, while it waits, takes the place of
   * the one before it, and the serial is acknowledged with it: the first of
   * the two is never applied.
   */
  lemma {:induction false} OvertakenGeometry(s: State, g: Geometry, h: Geometry, serial: nat, shown: Option<Size>)
    requires InLine(s) && s.managed && s.pending.serial != 0 && serial != 0 && h.size == OuterSize(s) && g != h
    ensures var u := Step(Step(s, ToplevelConfigure(Some(g), 0)), SurfaceConfigure(serial, shown));
            var t := Step(Step(u, ToplevelConfigure(Some(h), 0)), Attach(h.size));
            && u.next == Config(serial, Some(g), 0)
            && AppliedTo(FrameOf(s), Some(h), FrameOf(t))
            && NewestAck(t) == Some(Ack(serial, Some(h), Some(h.size), h.size))
  {
    var u := Step(Step(s, ToplevelConfigure(Some(g), 0)), SurfaceConfigure(serial, shown));
    var v := Step(u, ToplevelConfigure(Some(h), 0));
    var w := AttachTakesUp(v, h.size);
    assert AckAll(v, h.size).matched == w.matched + [Ack(serial, Some(h), Some(h.size), h.size)];
  }

  /** The serials of the configure events, in order. */
  function SerialsIn(es: seq<Event>): seq<nat> {
    if es == [] then []
    else
      var e := es[|es| - 1];
      SerialsIn(es[..|es| - 1]) + (if e.SurfaceConfigure? then [e.serial] else [])
  }

  lemma {:induction false} AckAllReceives(s: State, contents: Size)
    requires Sound(s)
    ensures AckAll(s, contents).received == s.received
    decreases Waiting(s)
  {
    if !MustWait(s, Some(contents)) {
      AckAllReceives(AckPending(s, Some(contents)), contents);
    }
  }

  /** In every run they are the serials received. */
  lemma {:induction false} ReceivedInEveryRun(managed: bool, x: int, y: int, size: Size, border: int, es: seq<Event>)
    ensures Run(Initial(managed, x, y, size, border), es).received == SerialsIn(es)
    decreases |es|
  {
    if es != [] {
      var front, e := es[..|es| - 1], es[|es| - 1];
      ReceivedInEveryRun(managed, x, y, size, border, front);
      assert SerialsIn(front) + [] == SerialsIn(front);
      if e.Attach? {
        AckAllReceives(Run(Initial(managed, x, y, size, border), front), e.contents);
      }
    }
  }

  // ----- every acknowledgement, from the events -----

  /** What the window is asked for at event p, which takes it up: its serial, if it has one, is the newest. */
  function AskedAt(s: State, es: seq<Event>, p: nat): Config
    requires Sound(s) && p < |es|
  {
    var since := SinceTaken(s, es[..p]);
    AskedBy(NoConfig, if es[p].SurfaceConfigure? then since + [es[p]] else since)
  }

  predicate TakenUpAt(s: State, es: seq<Event>, p: nat, serial: nat, change: Option<Geometry>)
    requires Sound(s)
  {
    && p < |es| && !es[p].ConfigureRequest? && Taken(Run(s, es[..p]), es[p])
    && AskedAt(s, es, p).serial == serial && AskedAt(s, es, p).change == change
  }

  /** The configure was taken up at some event of the run, with this serial and geometry. */
  ghost predicate FromEvents(s: State, es: seq<Event>, serial: nat, change: Option<Geometry>)
    requires Sound(s)
  {
    exists p: nat :: TakenUpAt(s, es, p, serial, change)
  }

  /** The pending configure and all acknowledged ones are. */
  ghost predicate AllFromEvents(s: State, es: seq<Event>, t: State)
    requires Sound(s)
  {
    && (t.pending.serial != 0 ==> FromEvents(s, es, t.pending.serial, t.pending.change))
    && (forall i :: 0 <= i < |t.matched| ==> FromEvents(s, es, t.matched[i].serial, t.matched[i].change))
  }

  lemma {:induction false} FromLonger(s: State, es: seq<Event>, serial: nat, change: Option<Geometry>)
    requires Sound(s) && es != [] && FromEvents(s, es[..|es| - 1], serial, change)
    ensures FromEvents(s, es, serial, change)
  {
    var front := es[..|es| - 1];
    var p: nat :| TakenUpAt(s, front, p, serial, change);
    assert front[..p] == es[..p];
    assert TakenUpAt(s, es, p, serial, change);
  }

  lemma {:induction false} AllFromLonger(s: State, es: seq<Event>, t: State)
    requires Sound(s) && es != [] && AllFromEvents(s, es[..|es| - 1], t)
    ensures AllFromEvents(s, es, t)
  {
    if t.pending.serial != 0 {
      FromLonger(s, es, t.pending.serial, t.pending.change);
    }
    forall i | 0 <= i < |t.matched|
      ensures FromEvents(s, es, t.matched[i].serial, t.matched[i].change)
    {
      FromLonger(s, es, t.matched[i].serial, t.matched[i].change);
    }
  }

  /** A configure that is taken up joins them. */
  lemma {:induction false} TakenUpFrom(s: State, es: seq<Event>, u: State, c: Config, contents: Option<Size>, t: State)
    requires Sound(s) && AllFromEvents(s, es, u) && FromEvents(s, es, c.serial, c.change) && TakesUp(u, c, contents, t)
    ensures AllFromEvents(s, es, t)
  {
    assert u.matched + [] == u.matched;
  }

  lemma {:induction false} AckedFrom(s: State, es: seq<Event>, u: State, v: State, contents: Size)
    requires Sound(s) && AllFromEvents(s, es, u) && u.pending.serial != 0 && v.pending.serial == 0
    requires Sent(u, v, [Ack(u.pending.serial, u.pending.change, Some(contents), Outer(FrameOf(u)))])
    ensures AllFromEvents(s, es, v)
  {
  }

  lemma {:induction false} ConfigureFrom(s: State, es: seq<Event>, u: State, serial: nat, contents: Option<Size>)
    requires Sound(s) && AllFromEvents(s, es, u) && InLine(u) && serial != 0
    requires u.pending.serial == 0 ==> FromEvents(s, es, serial, u.next.change)
    ensures AllFromEvents(s, es, OnConfigure(u, serial, contents))
  {
    if u.pending.serial == 0 {
      ConfigureTakesUp(u, serial, contents);
      TakenUpFrom(s, es, u, u.next.(serial := serial), contents, OnConfigure(u, serial, contents));
    } else {
      ConfigureWaits(u, serial, contents);
    }
  }

  lemma {:induction false} AttachFrom(s: State, es: seq<Event>, u: State, contents: Size)
    requires Sound(s) && AllFromEvents(s, es, u) && InLine(u)
    requires Taken(u, Attach(contents)) ==> FromEvents(s, es, u.next.serial, u.next.change)
    ensures AllFromEvents(s, es, AckAll(u, contents))
  {
    if u.pending.serial == 0 || !Fits(u.managed, Some(contents), FrameOf(u)) {
      AttachWaits(u, contents);
    } else {
      var v := AttachTakesUp(u, contents);
      AckedFrom(s, es, u, v, contents);
      if u.next.serial != 0 {
        TakenUpFrom(s, es, v, u.next, Some(contents), AckAll(u, contents));
      }
    }
  }

  /** What the last event takes up is what was asked for until then. */
  lemma {:induction false} LastTakesUp(x: int, y: int, size: Size, border: int, es: seq<Event>)
    requires es != [] && forall e :: e in es ==> Enabled(e)
    requires var e, u := es[|es| - 1], Run(Initial(true, x, y, size, border), es[..|es| - 1]);
             !e.ConfigureRequest? && Taken(u, e)
    ensures var s, e := Initial(true, x, y, size, border), es[|es| - 1];
            var u := Run(s, es[..|es| - 1]);
            FromEvents(s, es, if e.SurfaceConfigure? then e.serial else u.next.serial, u.next.change)
  {
    var s, e, front := Initial(true, x, y, size, border), es[|es| - 1], es[..|es| - 1];
    AskedInEveryRun(x, y, size, border, front);
    var since := SinceTaken(s, front);
    assert (since + [e])[..|since|] == since;
    assert TakenUpAt(s, es, |es| - 1, AskedAt(s, es, |es| - 1).serial, AskedAt(s, es, |es| - 1).change);
  }

  /**
   * In every run of a managed window each acknowledgement sent for contents
   * carries the serial and the geometry that the events asked for when its
   * configure was taken up: the last of each since the one before was taken.
   * So does the pending configure.
   */
  lemma {:induction false} EveryAckFromEvents(x: int, y: int, size: Size, border: int, es: seq<Event>)
    requires forall e :: e in es ==> Enabled(e)
    ensures var s := Initial(true, x, y, size, border); AllFromEvents(s, es, Run(s, es))
    decreases |es|
  {
    if es != [] {
      var s, front, e := Initial(true, x, y, size, border), es[..|es| - 1], es[|es| - 1];
      var u := Run(s, front);
      EveryAckFromEvents(x, y, size, border, front);
      AllFromLonger(s, es, u);
      RunInLine(true, x, y, size, border, front);
      assert e in es;
      if !e.ConfigureRequest? && Taken(u, e) {
        LastTakesUp(x, y, size, border, es);
      }
      match e
      case ToplevelConfigure(_, _) =>
      case SurfaceConfigure(serial, contents) => ConfigureFrom(s, es, u, serial, contents);
      case Attach(contents) => AttachFrom(s, es, u, contents);
      case ConfigureRequest(toplevel, a, b, wh) => RequestSets(u, toplevel, a, b, wh);
    }
  }

  // ----- the handlers -----

  class Window {
    const managed: bool
    var x: int
    var y: int
    var size: Size
    var border: int
    var pending: Config
    var next: Config
    var received: seq<nat>
    var acked: seq<nat>
    var matched: seq<Ack>

    ghost function View(): State
      reads this
    {
      State(managed, x, y, size, border, pending, next, received, acked, matched)
    }

    constructor (managed: bool, x: int, y: int, size: Size, border: int)
      ensures View() == Initial(managed, x, y, size, border)
    {
      this.managed, this.x, this.y, this.size, this.border := managed, x, y, size, border;
      pending, next, received, acked, matched := NoConfig, NoConfig, [], [], [];
    }

    /** sl_configure_window. */
    method Configure()
      requires pending.serial == 0 && (next.change.Some? ==> managed)
      modifies this
      ensures View() == ConfigureWindow(old(View()))
    {
      if next.change.Some? {
        var g := next.change.value;
        size := g.size;
        border := 0;
        if g.position.Some? {
          x, y := g.position.value.0, g.position.value.1;
        }
      }
      pending := next;
      next := NoConfig;
    }

    /** sl_process_pending_configure_acks. */
    method ProcessPending(contents: Option<Size>) returns (done: bool)
      requires Sound(View())
      modifies this
      ensures done == !MustWait(old(View()), contents)
      ensures View() == if done then AckPending(old(View()), contents) else old(View())
    {
      if pending.serial == 0 {
        return false;
      }
      if managed && contents.Some? {
        var outer := Size(size.w + border * 2, size.h + border * 2);
        if outer.w != contents.value.w || outer.h != contents.value.h {
          return false;
        }
      }
      acked := acked + [pending.serial];
      matched := matched + [Ack(pending.serial, pending.change, contents, Size(size.w + 2 * border, size.h + 2 * border))];
      pending := pending.(serial := 0);
      if next.serial != 0 {
        Configure();
      }
      return true;
    }

    /** The ack loop of sl_host_surface_attach. */
    method AttachContents(contents: Size)
      requires Sound(View())
      modifies this
      ensures View() == AckAll(old(View()), contents)
    {
      var more := true;
      while more
        invariant Sound(View()) && AckAll(View(), contents) == AckAll(old(View()), contents)
        invariant !more ==> MustWait(View(), Some(contents))
        decreases more, Waiting(View())
      {
        more := ProcessPending(Some(contents));
      }
    }

    /** sl_internal_xdg_surface_configure. */
    method SurfaceConfigured(serial: nat, contents: Option<Size>)
      requires Sound(View())
      modifies this
      ensures View() == OnConfigure(old(View()), serial, contents)
    {
      received := received + [serial];
      next := next.(serial := serial);
      if pending.serial == 0 {
        Configure();
        var _ := ProcessPending(contents);
      }
    }

    /** sl_internal_xdg_toplevel_configure. */
    method ToplevelConfigured(change: Option<Geometry>, states: nat)
      requires Sound(View())
      modifies this
      ensures View() == Step(old(View()), ToplevelConfigure(change, states))
    {
      if !managed {
        return;
      }
      if change.Some? {
        next := next.(change := change);
      }
      next := next.(states := states);
    }

    /** sl_handle_configure_request: both configures are acknowledged, then the geometry changes and the border goes. */
    method HandleConfigureRequest(toplevel: bool, x: int, y: int, size: Size)
      requires Sound(View())
      modifies this
      ensures View() == Step(old(View()), ConfigureRequest(toplevel, x, y, size))
    {
      if !managed {
        return;
      }
      if toplevel {
        if pending.serial != 0 {
          acked := acked + [pending.serial];
          pending := NoConfig;
        }
        if next.serial != 0 {
          acked := acked + [next.serial];
          next := NoConfig;
        }
      }
      var resized := this.size != size;
      this.x, this.y, this.size := x, y, size;
      if resized || border != 0 {
        border := 0;
      }
    }
  }
}

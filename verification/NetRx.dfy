/** The receive path of src/devices/virtio_net.rs: frames from the tap to the guest's chains. */
module NetRx {
  import opened Machine

  type Frame = seq<byte>

  const MAX_BUFFER_SIZE: nat := 65562

  /** A descriptor chain taken from the queue: what was written to it, and the frames that makes up. */
  datatype Chain = Chain(capacity: nat, data: seq<byte>, frames: seq<Frame>)

  /** One read of the tap: a frame, nothing there, or an error. */
  datatype TapResult = Got(frame: Frame) | Again | Failed

  /** `pending` is rx_frame[..rx_bytes]; `read` lists the non-empty frames the tap gave. */
  datatype State = State(pending: Frame, polled: bool, chains: seq<Chain>, read: seq<Frame>)

  const Initial: State := State([], false, [], [])

  /** What the queue and the tap offer during one event, and whether epoll changes succeed. */
  datatype Offer = Offer(rooms: seq<nat>, taps: seq<TapResult>, addOk: bool, deleteOk: bool)

  predicate OfferOk(o: Offer) {
    forall i :: 0 <= i < |o.taps| && o.taps[i].Got? ==> |o.taps[i].frame| <= MAX_BUFFER_SIZE
  }

  datatype Event = TapReady(offer: Offer) | QueueReady(offer: Offer)

  function Remaining(c: Chain): int {
    c.capacity - |c.data|
  }

  function Open(s: State, room: nat): State {
    s.(chains := s.chains + [Chain(room, [], [])])
  }

  function OpenRemaining(s: State): int {
    if s.chains == [] then 0 else Remaining(s.chains[|s.chains| - 1])
  }

  function Append(c: Chain, f: Frame): Chain {
    c.(data := c.data + f, frames := if f == [] then c.frames else c.frames + [f])
  }

  /** receive_frame, when the open chain has room. */
  function Deliver(s: State): State
    requires s.chains != []
  {
    var n := |s.chains| - 1;
    s.(chains := s.chains[..n] + [Append(s.chains[n], s.pending)], pending := [])
  }

  function Take(s: State, f: Frame): State {
    s.(pending := f, read := if f == [] then s.read else s.read + [f])
  }

  /** The loop of handle_rx_tap, with a chain open and nothing pending. */
  function Drain(s: State, rooms: seq<nat>, taps: seq<TapResult>): State
    requires s.chains != []
    decreases |taps|
  {
    if taps == [] || !taps[0].Got? then s
    else
      var t := Take(s, taps[0].frame);
      if OpenRemaining(t) < |t.pending| then
        if rooms == [] then t
        else if rooms[0] < |t.pending| then Open(t, rooms[0])
        else Drain(Deliver(Open(t, rooms[0])), rooms[1..], taps[1..])
      else Drain(Deliver(t), rooms, taps[1..])
  }

  function HandleTap(s: State, o: Offer): State {
    if o.rooms == [] then
      (if o.deleteOk then s.(polled := false) else s)
    else
      var t := Open(s, o.rooms[0]);
      if s.pending == [] then Drain(t, o.rooms[1..], o.taps)
      else if o.rooms[0] < |s.pending| then t
      else Drain(Deliver(t), o.rooms[1..], o.taps)
  }

  function HandleQueue(s: State, o: Offer): State {
    var t := if s.polled then s else s.(polled := o.addOk);
    if t.pending == [] then t else HandleTap(t, o)
  }

  function Step(s: State, e: Event): State {
    match e
    case TapReady(o) => HandleTap(s, o)
    case QueueReady(o) => HandleQueue(s, o)
  }

  function Run(es: seq<Event>): State {
    if es == [] then Initial else Step(Run(es[..|es| - 1]), es[|es| - 1])
  }

  predicate Possible(es: seq<Event>) {
    forall i :: 0 <= i < |es| ==> OfferOk(es[i].offer)
  }

  // ----- conservation -----

  function Concat(fs: seq<Frame>): seq<byte> {
    if fs == [] then [] else Concat(fs[..|fs| - 1]) + fs[|fs| - 1]
  }

  function Delivered(cs: seq<Chain>): seq<Frame> {
    if cs == [] then [] else Delivered(cs[..|cs| - 1]) + cs[|cs| - 1].frames
  }

  function PendingFrames(s: State): seq<Frame> {
    if s.pending == [] then [] else [s.pending]
  }

  /** A chain holds whole frames and no more than its capacity. */
  predicate ChainOk(c: Chain) {
    c.data == Concat(c.frames) && |c.data| <= c.capacity
  }

  ghost predicate Invariant(s: State) {
    && (forall c :: c in s.chains ==> ChainOk(c))
    && Delivered(s.chains) + PendingFrames(s) == s.read
    && |s.pending| <= MAX_BUFFER_SIZE
  }

  lemma {:induction false} AppendKeeps(c: Chain, f: Frame)
    requires ChainOk(c) && |f| <= Remaining(c)
    ensures ChainOk(Append(c, f))
  {
    if f != [] {
      assert (c.frames + [f])[..|c.frames|] == c.frames;
    }
  }

  lemma {:induction false} DeliveredWithLast(cs: seq<Chain>, c: Chain)
    ensures Delivered(cs + [c]) == Delivered(cs) + c.frames
  {
    assert (cs + [c])[..|cs|] == cs;
  }

  lemma {:induction false} OpenKeeps(s: State, room: nat)
    requires Invariant(s)
    ensures Invariant(Open(s, room))
  {
    DeliveredWithLast(s.chains, Chain(room, [], []));
    assert Delivered(s.chains) + [] == Delivered(s.chains);
  }

  lemma {:induction false} DeliverKeeps(s: State)
    requires Invariant(s) && s.chains != [] && |s.pending| <= OpenRemaining(s)
    ensures Invariant(Deliver(s))
  {
    var n := |s.chains| - 1;
    var front, c := s.chains[..n], s.chains[n];
    assert ChainOk(c);
    AppendKeeps(c, s.pending);
    assert s.chains == front + [c];
    DeliveredWithLast(front, c);
    DeliveredWithLast(front, Append(c, s.pending));
    assert Append(c, s.pending).frames == c.frames + PendingFrames(s);
    Regroup(Delivered(front), c.frames, PendingFrames(s));
  }

  lemma {:induction false} Regroup(a: seq<Frame>, b: seq<Frame>, c: seq<Frame>)
    ensures a + (b + c) + [] == a + b + c
  {
  }

  lemma {:induction false} TakeKeeps(s: State, f: Frame)
    requires Invariant(s) && s.pending == [] && |f| <= MAX_BUFFER_SIZE
    ensures Invariant(Take(s, f))
  {
    assert Delivered(s.chains) + [] == Delivered(s.chains);
  }

  lemma {:induction false} DrainKeeps(s: State, rooms: seq<nat>, taps: seq<TapResult>)
    requires Invariant(s) && s.chains != [] && s.pending == []
    requires forall i :: 0 <= i < |taps| && taps[i].Got? ==> |taps[i].frame| <= MAX_BUFFER_SIZE
    ensures Invariant(Drain(s, rooms, taps))
    decreases |taps|
  {
    if taps != [] && taps[0].Got? {
      var t := Take(s, taps[0].frame);
      TakeKeeps(s, taps[0].frame);
      if OpenRemaining(t) >= |t.pending| {
        DeliverKeeps(t);
        DrainKeeps(Deliver(t), rooms, taps[1..]);
      } else if rooms != [] {
        OpenKeeps(t, rooms[0]);
        if rooms[0] >= |t.pending| {
          DeliverKeeps(Open(t, rooms[0]));
          DrainKeeps(Deliver(Open(t, rooms[0])), rooms[1..], taps[1..]);
        }
      }
    }
  }

  lemma {:induction false} HandleTapKeeps(s: State, o: Offer)
    requires Invariant(s) && OfferOk(o)
    ensures Invariant(HandleTap(s, o))
  {
    if o.rooms != [] {
      var t := Open(s, o.rooms[0]);
      OpenKeeps(s, o.rooms[0]);
      if s.pending == [] {
        DrainKeeps(t, o.rooms[1..], o.taps);
      } else if o.rooms[0] >= |s.pending| {
        DeliverKeeps(t);
        DrainKeeps(Deliver(t), o.rooms[1..], o.taps);
      }
    }
  }

  lemma {:induction false} StepKeeps(s: State, e: Event)
    requires Invariant(s) && OfferOk(e.offer)
    ensures Invariant(Step(s, e))
  {
    match e {
      case TapReady(o) => HandleTapKeeps(s, o);
      case QueueReady(o) => HandleTapKeeps(if s.polled then s else s.(polled := o.addOk), o);
    }
  }

  lemma {:induction false} RunKeeps(es: seq<Event>)
    requires Possible(es)
    ensures Invariant(Run(es))
  {
    if es != [] {
      RunKeeps(es[..|es| - 1]);
      StepKeeps(Run(es[..|es| - 1]), es[|es| - 1]);
    }
  }

  /** Frames delivered, then the pending one, are the non-empty frames read from the tap, in order. */
  lemma {:induction false} FramesConserved(es: seq<Event>)
    requires Possible(es)
    ensures var s := Run(es); Delivered(s.chains) + PendingFrames(s) == s.read
  {
    RunKeeps(es);
  }

  /** No frame is split: every chain holds whole frames back to back, within its capacity. */
  lemma {:induction false} FramesAreWhole(es: seq<Event>, i: nat)
    requires Possible(es) && i < |Run(es).chains|
    ensures var c := Run(es).chains[i]; c.data == Concat(c.frames) && |c.data| <= c.capacity
  {
    RunKeeps(es);
    assert Run(es).chains[i] in Run(es).chains;
  }

  // ----- frames that share a chain -----

  /** Frames have at least m bytes and chains at most `room`. */
  predicate OfferWithin(o: Offer, m: nat, room: nat) {
    && (forall i :: 0 <= i < |o.taps| && o.taps[i].Got? && o.taps[i].frame != [] ==> m <= |o.taps[i].frame|)
    && (forall i :: 0 <= i < |o.rooms| ==> o.rooms[i] <= room)
  }

  predicate RunWithin(es: seq<Event>, m: nat, room: nat) {
    forall i :: 0 <= i < |es| ==> OfferWithin(es[i].offer, m, room)
  }

  predicate FramesAtLeast(fs: seq<Frame>, m: nat) {
    forall i :: 0 <= i < |fs| ==> m <= |fs[i]|
  }

  predicate ChainWithin(c: Chain, m: nat, room: nat) {
    c.capacity <= room && FramesAtLeast(c.frames, m)
  }

  predicate StateWithin(s: State, m: nat, room: nat) {
    (forall i :: 0 <= i < |s.chains| ==> ChainWithin(s.chains[i], m, room)) && (s.pending == [] || m <= |s.pending|)
  }

  lemma {:induction false} OpenWithin(s: State, room: nat, m: nat, most: nat)
    requires StateWithin(s, m, most) && room <= most
    ensures StateWithin(Open(s, room), m, most)
  {
  }

  lemma {:induction false} DeliverWithin(s: State, m: nat, room: nat)
    requires StateWithin(s, m, room) && s.chains != []
    ensures StateWithin(Deliver(s), m, room)
  {
    var n := |s.chains| - 1;
    assert ChainWithin(s.chains[n], m, room);
    assert ChainWithin(Append(s.chains[n], s.pending), m, room);
  }

  lemma {:induction false} DrainWithin(s: State, rooms: seq<nat>, taps: seq<TapResult>, m: nat, room: nat)
    requires StateWithin(s, m, room) && s.chains != []
    requires forall i :: 0 <= i < |taps| && taps[i].Got? && taps[i].frame != [] ==> m <= |taps[i].frame|
    requires forall i :: 0 <= i < |rooms| ==> rooms[i] <= room
    ensures StateWithin(Drain(s, rooms, taps), m, room)
    decreases |taps|
  {
    if taps != [] && taps[0].Got? {
      var t := Take(s, taps[0].frame);
      assert StateWithin(t, m, room);
      if OpenRemaining(t) >= |t.pending| {
        DeliverWithin(t, m, room);
        DrainWithin(Deliver(t), rooms, taps[1..], m, room);
      } else if rooms != [] {
        OpenWithin(t, rooms[0], m, room);
        if rooms[0] >= |t.pending| {
          DeliverWithin(Open(t, rooms[0]), m, room);
          DrainWithin(Deliver(Open(t, rooms[0])), rooms[1..], taps[1..], m, room);
        }
      }
    }
  }

  lemma {:induction false} HandleTapWithin(s: State, o: Offer, m: nat, room: nat)
    requires StateWithin(s, m, room) && OfferWithin(o, m, room)
    ensures StateWithin(HandleTap(s, o), m, room)
  {
    if o.rooms != [] {
      var t := Open(s, o.rooms[0]);
      OpenWithin(s, o.rooms[0], m, room);
      if s.pending == [] {
        DrainWithin(t, o.rooms[1..], o.taps, m, room);
      } else if o.rooms[0] >= |s.pending| {
        DeliverWithin(t, m, room);
        DrainWithin(Deliver(t), o.rooms[1..], o.taps, m, room);
      }
    }
  }

  lemma {:induction false} RunStaysWithin(es: seq<Event>, m: nat, room: nat)
    requires RunWithin(es, m, room)
    ensures StateWithin(Run(es), m, room)
    decreases |es|
  {
    if es != [] {
      var s, e := Run(es[..|es| - 1]), es[|es| - 1];
      RunStaysWithin(es[..|es| - 1], m, room);
      assert OfferWithin(e.offer, m, room);
      HandleTapWithin(if e.TapReady? || s.polled then s else s.(polled := e.offer.addOk), e.offer, m, room);
    }
  }

  lemma {:induction false} TwoFramesSize(fs: seq<Frame>, m: nat)
    requires FramesAtLeast(fs, m) && |fs| >= 2
    ensures |Concat(fs)| >= 2 * m
  {
    var front := fs[..|fs| - 1];
    assert Concat(front) == Concat(front[..|front| - 1]) + front[|front| - 1];
    assert front[|front| - 1] == fs[|fs| - 2];
  }

  /** Every chain of the run holds at most one frame, as a driver without merged buffers expects. */
  predicate OneEach(s: State) {
    forall i :: 0 <= i < |s.chains| ==> |s.chains[i].frames| <= 1
  }

  /** One frame to a chain, for every run with frames of at least m bytes and chains of at most `room`. */
  ghost predicate AlwaysOneEach(m: nat, room: nat) {
    forall es: seq<Event> :: Possible(es) && RunWithin(es, m, room) ==> OneEach(Run(es))
  }

  lemma {:induction false} SmallChainsHoldOne(m: nat, room: nat)
    requires room < 2 * m
    ensures AlwaysOneEach(m, room)
  {
    forall es: seq<Event> | Possible(es) && RunWithin(es, m, room)
      ensures OneEach(Run(es))
    {
      var s := Run(es);
      RunStaysWithin(es, m, room);
      forall i | 0 <= i < |s.chains|
        ensures |s.chains[i].frames| <= 1
      {
        FramesAreWhole(es, i);
        assert ChainWithin(s.chains[i], m, room);
        if |s.chains[i].frames| >= 2 {
          TwoFramesSize(s.chains[i].frames, m);
        }
      }
    }
  }

  /** One tap event with a chain of the given room, and two frames to read. */
  function TwoFrames(f: Frame, g: Frame, room: nat): seq<Event> {
    [TapReady(Offer([room], [Got(f), Got(g)], true, true))]
  }

  /** Two frames that fit one chain together are put into it together. */
  lemma {:induction false} SharedChain(f: Frame, g: Frame, room: nat)
    requires f != [] && g != [] && |f| + |g| <= room
    ensures Run(TwoFrames(f, g, room)).chains == [Chain(room, f + g, [f, g])]
  {
    var es := TwoFrames(f, g, room);
    assert es[..0] == [] && Run(es[..0]) == Initial;
    var taps := [Got(f), Got(g)];
    var s := Open(Initial, room);
    var t := Deliver(Take(s, f));
    assert t == State([], false, [Chain(room, f, [f])], [f]) by {
      assert [] + f == f && [] + [f] == [f];
    }
    var u := Deliver(Take(t, g));
    assert u.chains == [Chain(room, f + g, [f, g])] by {
      assert [f] + [g] == [f, g];
    }
    assert taps[1..] == [Got(g)] && taps[1..][1..] == [];
    assert Drain(u, [], []) == u;
    assert Drain(t, [], [Got(g)]) == u;
    assert [room][1..] == [];
    assert Drain(s, [], taps) == u;
  }

  /** Frames never share a chain, in any run within the bounds, if and only if no chain has room for two. */
  lemma {:induction false} OneEachIff(m: nat, room: nat)
    requires 0 < m <= MAX_BUFFER_SIZE
    ensures AlwaysOneEach(m, room) <==> room < 2 * m
  {
    if room < 2 * m {
      SmallChainsHoldOne(m, room);
    } else {
      var f := Zeros(m);
      var es := TwoFrames(f, f, room);
      SharedChain(f, f, room);
      assert es[0].offer == Offer([room], [Got(f), Got(f)], true, true);
      assert OfferOk(es[0].offer) && OfferWithin(es[0].offer, m, room);
      assert |Run(es).chains[0].frames| == 2;
    }
  }

  // ----- no needless waiting -----

  lemma {:induction false} DrainStopsForRoom(s: State, rooms: seq<nat>, taps: seq<TapResult>)
    requires s.chains != [] && s.pending == []
    ensures var t := Drain(s, rooms, taps); t.pending != [] ==> OpenRemaining(t) < |t.pending|
    decreases |taps|
  {
    if taps != [] && taps[0].Got? {
      var t := Take(s, taps[0].frame);
      if OpenRemaining(t) >= |t.pending| {
        DrainStopsForRoom(Deliver(t), rooms, taps[1..]);
      } else if rooms != [] && rooms[0] >= |t.pending| {
        DrainStopsForRoom(Deliver(Open(t, rooms[0])), rooms[1..], taps[1..]);
      }
    }
  }

  lemma {:induction false} TapWaitsOnlyForRoom(s: State, o: Offer)
    requires o.rooms != []
    ensures var t := HandleTap(s, o); t.pending != [] ==> OpenRemaining(t) < |t.pending|
  {
    var t := Open(s, o.rooms[0]);
    if s.pending == [] {
      DrainStopsForRoom(t, o.rooms[1..], o.taps);
    } else if o.rooms[0] >= |s.pending| {
      DrainStopsForRoom(Deliver(t), o.rooms[1..], o.taps);
    }
  }

  /** An event that was offered a chain leaves a frame pending only if the newest chain has no room for it. */
  lemma {:induction false} FrameWaitsOnlyForRoom(s: State, e: Event)
    requires e.offer.rooms != []
    ensures var t := Step(s, e); t.pending != [] ==> OpenRemaining(t) < |t.pending|
  {
    TapWaitsOnlyForRoom(s, e.offer);
    TapWaitsOnlyForRoom(s.(polled := e.offer.addOk), e.offer);
  }

  // ----- what an event takes from the tap and from the queue -----

  /** The reads before the tap has nothing more to give. */
  function Ready(taps: seq<TapResult>): (k: nat)
    ensures k <= |taps| && forall i :: 0 <= i < k ==> taps[i].Got?
    ensures k < |taps| ==> !taps[k].Got?
  {
    if taps == [] || !taps[0].Got? then 0 else 1 + Ready(taps[1..])
  }

  /** The frames of those reads, without the empty ones. */
  function Frames(taps: seq<TapResult>): seq<Frame>
    requires forall i :: 0 <= i < |taps| ==> taps[i].Got?
  {
    if taps == [] then []
    else Frames(taps[..|taps| - 1]) + (if taps[|taps| - 1].frame == [] then [] else [taps[|taps| - 1].frame])
  }

  /** The capacities of the chains. */
  function Rooms(cs: seq<Chain>): seq<nat> {
    if cs == [] then [] else Rooms(cs[..|cs| - 1]) + [cs[|cs| - 1].capacity]
  }

  lemma {:induction false} FramesCons(t: TapResult, taps: seq<TapResult>)
    requires t.Got? && forall i :: 0 <= i < |taps| ==> taps[i].Got?
    ensures Frames([t] + taps) == (if t.frame == [] then [] else [t.frame]) + Frames(taps)
    decreases |taps|
  {
    if taps == [] {
      assert [t] + taps == [t] && [t][..0] == [];
    } else {
      var all := [t] + taps;
      assert all[..|all| - 1] == [t] + taps[..|taps| - 1];
      FramesCons(t, taps[..|taps| - 1]);
    }
  }

  /** k reads were taken from the tap: all it had, unless a frame now waits. */
  predicate TookReads(read: seq<Frame>, t: State, taps: seq<TapResult>, k: nat) {
    k <= Ready(taps) && t.read == read + Frames(taps[..k]) && (k < Ready(taps) ==> t.pending != [])
  }

  lemma {:induction false} OneMoreRead(read: seq<Frame>, t: State, taps: seq<TapResult>, k: nat)
    requires taps != [] && taps[0].Got?
    requires TookReads(if taps[0].frame == [] then read else read + [taps[0].frame], t, taps[1..], k)
    ensures TookReads(read, t, taps, k + 1)
  {
    FramesCons(taps[0], taps[1..][..k]);
    assert taps[..k + 1] == [taps[0]] + taps[1..][..k];
  }

  lemma {:induction false} NoRead(t: State, taps: seq<TapResult>)
    requires t.pending != [] || Ready(taps) == 0
    ensures TookReads(t.read, t, taps, 0)
  {
    assert taps[..0] == [] && t.read + [] == t.read;
  }

  lemma {:induction false} DeliverRooms(s: State)
    requires s.chains != []
    ensures Rooms(Deliver(s).chains) == Rooms(s.chains)
  {
    var n := |s.chains| - 1;
    assert Deliver(s).chains[..n] == s.chains[..n];
  }

  lemma {:induction false} OpenRooms(s: State, room: nat)
    ensures Rooms(Open(s, room).chains) == Rooms(s.chains) + [room]
    ensures Rooms(Deliver(Open(s, room)).chains) == Rooms(s.chains) + [room]
  {
    assert Open(s, room).chains[..|s.chains|] == s.chains;
    DeliverRooms(Open(s, room));
  }

  lemma {:induction false} FirstRoom(a: seq<nat>, rooms: seq<nat>, j: nat)
    requires j < |rooms|
    ensures a + [rooms[0]] + rooms[1..][..j] == a + rooms[..j + 1]
  {
    assert rooms[..j + 1] == [rooms[0]] + rooms[1..][..j];
  }

  /** The frame fits the open chain, or the next one of the queue. */
  predicate Fits(s: State, rooms: seq<nat>, f: Frame) {
    |f| <= OpenRemaining(s) || (rooms != [] && |f| <= rooms[0])
  }

  /** The frame is delivered; the chains left in the queue. */
  function Placed(s: State, rooms: seq<nat>, f: Frame): (State, seq<nat>)
    requires s.chains != [] && Fits(s, rooms, f)
  {
    if |f| <= OpenRemaining(s) then (Deliver(Take(s, f)), rooms) else (Deliver(Open(Take(s, f), rooms[0])), rooms[1..])
  }

  lemma {:induction false} PlacedState(s: State, rooms: seq<nat>, f: Frame)
    requires s.chains != [] && Fits(s, rooms, f)
    ensures var (t, left) := Placed(s, rooms, f);
            t.chains != [] && t.pending == [] && OpenRemaining(t) >= 0 && t.read == Take(s, f).read
  {
  }

  lemma {:induction false} PlacedRooms(s: State, rooms: seq<nat>, f: Frame, j: nat) returns (i: nat)
    requires s.chains != [] && Fits(s, rooms, f) && j <= |Placed(s, rooms, f).1|
    ensures var (t, left) := Placed(s, rooms, f);
            i <= |rooms| && Rooms(t.chains) + left[..j] == Rooms(s.chains) + rooms[..i]
  {
    if |f| <= OpenRemaining(s) {
      DeliverRooms(Take(s, f));
      i := j;
    } else {
      OpenRooms(Take(s, f), rooms[0]);
      FirstRoom(Rooms(s.chains), rooms, j);
      i := j + 1;
    }
  }

  lemma {:induction false} DrainGoesOn(s: State, rooms: seq<nat>, taps: seq<TapResult>)
    requires s.chains != [] && taps != [] && taps[0].Got? && Fits(s, rooms, taps[0].frame)
    ensures var (t, left) := Placed(s, rooms, taps[0].frame);
            t.chains != [] && Drain(s, rooms, taps) == Drain(t, left, taps[1..])
  {
    var t := Take(s, taps[0].frame);
    assert OpenRemaining(t) == OpenRemaining(s) && t.pending == taps[0].frame;
    if |t.pending| <= OpenRemaining(t) {
      assert Drain(s, rooms, taps) == Drain(Deliver(t), rooms, taps[1..]);
    } else {
      assert Drain(s, rooms, taps) == Drain(Deliver(Open(t, rooms[0])), rooms[1..], taps[1..]);
    }
  }

  lemma {:induction false} DrainStops(s: State, rooms: seq<nat>, taps: seq<TapResult>)
    requires s.chains != [] && taps != [] && taps[0].Got? && !Fits(s, rooms, taps[0].frame)
    ensures var t := Take(s, taps[0].frame);
            Drain(s, rooms, taps) == if rooms == [] then t else Open(t, rooms[0])
  {
  }

  lemma {:induction false} DrainReads(s: State, rooms: seq<nat>, taps: seq<TapResult>) returns (k: nat)
    requires s.chains != [] && s.pending == [] && OpenRemaining(s) >= 0
    ensures TookReads(s.read, Drain(s, rooms, taps), taps, k)
    decreases |taps|
  {
    k := 0;
    if taps == [] || !taps[0].Got? {
      NoRead(s, taps);
      return;
    }
    var f := taps[0].frame;
    if Fits(s, rooms, f) {
      PlacedState(s, rooms, f);
      DrainGoesOn(s, rooms, taps);
      k := DrainReads(Placed(s, rooms, f).0, Placed(s, rooms, f).1, taps[1..]);
    } else {
      DrainStops(s, rooms, taps);
      NoRead(Drain(s, rooms, taps), taps[1..]);
    }
    OneMoreRead(s.read, Drain(s, rooms, taps), taps, k);
    k := k + 1;
  }

  /** j chains were taken from the queue, in order. */
  lemma {:induction false} DrainRooms(s: State, rooms: seq<nat>, taps: seq<TapResult>) returns (j: nat)
    requires s.chains != []
    ensures j <= |rooms| && Rooms(Drain(s, rooms, taps).chains) == Rooms(s.chains) + rooms[..j]
    decreases |taps|
  {
    j := 0;
    if taps != [] && taps[0].Got? {
      var f := taps[0].frame;
      if Fits(s, rooms, f) {
        DrainGoesOn(s, rooms, taps);
        j := DrainRooms(Placed(s, rooms, f).0, Placed(s, rooms, f).1, taps[1..]);
        j := PlacedRooms(s, rooms, f, j);
      } else {
        DrainStops(s, rooms, taps);
        if rooms != [] {
          OpenRooms(Take(s, f), rooms[0]);
          FirstRoom(Rooms(s.chains), rooms, 0);
          j := 1;
        }
      }
    }
  }

  /** Chains before the open one are left alone. */
  lemma {:induction false} DrainLeaves(s: State, rooms: seq<nat>, taps: seq<TapResult>, n: nat)
    requires n < |s.chains|
    ensures n < |Drain(s, rooms, taps).chains| && Drain(s, rooms, taps).chains[..n] == s.chains[..n]
    decreases |taps|
  {
    if taps != [] && taps[0].Got? {
      var t := Take(s, taps[0].frame);
      if OpenRemaining(t) >= |t.pending| {
        DrainLeaves(Deliver(t), rooms, taps[1..], n);
      } else if rooms != [] {
        var u := Open(t, rooms[0]);
        assert u.chains[..n] == s.chains[..n];
        if rooms[0] >= |t.pending| {
          DrainLeaves(Deliver(u), rooms[1..], taps[1..], n);
        }
      }
    }
  }

  /** What a tap event starts to drain with. */
  function Opened(s: State, room: nat): State {
    if s.pending == [] then Open(s, room) else Deliver(Open(s, room))
  }

  /** A tap event with a chain on offer takes all frames the tap has, unless one is left waiting. */
  lemma {:induction false} TapReads(s: State, o: Offer) returns (k: nat)
    requires o.rooms != []
    ensures TookReads(s.read, HandleTap(s, o), o.taps, k)
  {
    k := 0;
    if s.pending == [] || o.rooms[0] >= |s.pending| {
      k := DrainReads(Opened(s, o.rooms[0]), o.rooms[1..], o.taps);
    }
  }

  /** It takes the first chains of the queue, in order. */
  lemma {:induction false} TapTakes(s: State, o: Offer) returns (j: nat)
    requires o.rooms != []
    ensures 0 < j <= |o.rooms| && Rooms(HandleTap(s, o).chains) == Rooms(s.chains) + o.rooms[..j]
  {
    j := 0;
    OpenRooms(s, o.rooms[0]);
    if s.pending == [] || o.rooms[0] >= |s.pending| {
      j := DrainRooms(Opened(s, o.rooms[0]), o.rooms[1..], o.taps);
    }
    FirstRoom(Rooms(s.chains), o.rooms, j);
    j := j + 1;
  }

  /** It leaves the chains used before alone. */
  lemma {:induction false} TapLeaves(s: State, o: Offer)
    ensures |s.chains| <= |HandleTap(s, o).chains| && HandleTap(s, o).chains[..|s.chains|] == s.chains
  {
    if o.rooms != [] {
      var u := Opened(s, o.rooms[0]);
      assert Open(s, o.rooms[0]).chains[..|s.chains|] == s.chains && u.chains[..|s.chains|] == s.chains;
      DrainLeaves(u, o.rooms[1..], o.taps, |s.chains|);
    }
  }

  /** A queue event without a frame waiting takes nothing from tap or queue; with one it is a tap event. */
  lemma {:induction false} QueueTakes(s: State, o: Offer)
    ensures var t := Step(s, QueueReady(o));
            if s.pending == [] then t.read == s.read && t.chains == s.chains && t.pending == []
            else
              var u := Step(s, TapReady(o));
              t.read == u.read && t.chains == u.chains && t.pending == u.pending
  {
    SamePolled(s, o, o.addOk);
  }

  lemma {:induction false} DrainSame(s: State, p: bool, rooms: seq<nat>, taps: seq<TapResult>)
    requires s.chains != []
    ensures Drain(s.(polled := p), rooms, taps) == Drain(s, rooms, taps).(polled := p)
    decreases |taps|
  {
    if taps != [] && taps[0].Got? {
      var t := Take(s, taps[0].frame);
      if OpenRemaining(t) >= |t.pending| {
        DrainSame(Deliver(t), p, rooms, taps[1..]);
      } else if rooms != [] && rooms[0] >= |t.pending| {
        DrainSame(Deliver(Open(t, rooms[0])), p, rooms[1..], taps[1..]);
      }
    }
  }

  lemma {:induction false} SamePolled(s: State, o: Offer, p: bool)
    ensures var t, u := HandleTap(s.(polled := p), o), HandleTap(s, o);
            t.read == u.read && t.chains == u.chains && t.pending == u.pending
  {
    if o.rooms != [] && (s.pending == [] || o.rooms[0] >= |s.pending|) {
      DrainSame(Opened(s, o.rooms[0]), p, o.rooms[1..], o.taps);
    }
  }

  // ----- whether the tap is polled -----

  /**
   * From the events: a queue event switches polling on, if epoll accepts it; a
   * tap event that finds no chain switches it off, if epoll accepts that; and a
   * queue event with a frame waiting is followed by a tap event.
   */
  function Polled(es: seq<Event>): bool {
    if es == [] then false
    else
      var before, e := Polled(es[..|es| - 1]), es[|es| - 1];
      var turnsOff := e.offer.rooms == [] && e.offer.deleteOk && (e.QueueReady? ==> Run(es[..|es| - 1]).pending != []);
      !turnsOff && (before || (e.QueueReady? && e.offer.addOk))
  }

  lemma {:induction false} DrainKeepsPolling(s: State, rooms: seq<nat>, taps: seq<TapResult>)
    requires s.chains != []
    ensures Drain(s, rooms, taps).polled == s.polled
    decreases |taps|
  {
    if taps != [] && taps[0].Got? {
      var t := Take(s, taps[0].frame);
      if OpenRemaining(t) >= |t.pending| {
        DrainKeepsPolling(Deliver(t), rooms, taps[1..]);
      } else if rooms != [] && rooms[0] >= |t.pending| {
        DrainKeepsPolling(Deliver(Open(t, rooms[0])), rooms[1..], taps[1..]);
      }
    }
  }

  lemma {:induction false} TapPolling(s: State, o: Offer)
    ensures HandleTap(s, o).polled == (s.polled && !(o.rooms == [] && o.deleteOk))
  {
    if o.rooms != [] {
      var t := Open(s, o.rooms[0]);
      DrainKeepsPolling(t, o.rooms[1..], o.taps);
      DrainKeepsPolling(Deliver(t), o.rooms[1..], o.taps);
    }
  }

  /** In every run the tap is polled as these events say. */
  lemma {:induction false} PolledInEveryRun(es: seq<Event>)
    ensures Run(es).polled == Polled(es)
  {
    if es != [] {
      var front, e := es[..|es| - 1], es[|es| - 1];
      PolledInEveryRun(front);
      var s := Run(front);
      match e
      case TapReady(o) => TapPolling(s, o);
      case QueueReady(o) =>
        TapPolling(if s.polled then s else s.(polled := o.addOk), o);
    }
  }

  /** No stall: once the guest offers a chain, the tap is polled again, if epoll accepts it. */
  lemma {:induction false} QueueResumes(es: seq<Event>, o: Offer)
    requires o.rooms != [] && o.addOk
    ensures Run(es + [QueueReady(o)]).polled
  {
    PolledInEveryRun(es + [QueueReady(o)]);
  }

  /** The tap stops being polled only at an event that found no chain. */
  lemma {:induction false} StopsOnlyWithoutChains(es: seq<Event>, e: Event)
    requires Run(es).polled && !Run(es + [e]).polled
    ensures e.offer.rooms == []
  {
    PolledInEveryRun(es);
    PolledInEveryRun(es + [e]);
    assert (es + [e])[..|es|] == es;
  }

  // ----- the device -----

  class VirtioNetDevice {
    var rxBytes: nat
    const rxFrame: array<byte>
    var tapEventEnabled: bool
    // Chains taken from the queue, the last one open; and the frames the tap gave.
    var chains: seq<Chain>
    var read: seq<Frame>

    ghost predicate Valid()
      reads this
    {
      rxFrame.Length == MAX_BUFFER_SIZE && rxBytes <= rxFrame.Length
    }

    ghost function View(): State
      requires Valid()
      reads this, rxFrame
    {
      State(rxFrame[..rxBytes], tapEventEnabled, chains, read)
    }

    constructor ()
      ensures Valid() && View() == Initial && fresh(rxFrame)
    {
      rxFrame := new byte[MAX_BUFFER_SIZE];
      rxBytes, tapEventEnabled, chains, read := 0, false, [], [];
    }

    method TakeChain(room: nat)
      requires Valid()
      modifies this`chains
      ensures View() == Open(old(View()), room)
    {
      chains := chains + [Chain(room, [], [])];
    }

    method ReceiveFrame() returns (fits: bool)
      requires Valid() && chains != []
      modifies this`chains, this`rxBytes
      ensures Valid() && (fits <==> old(OpenRemaining(View()) >= |View().pending|))
      ensures View() == if fits then Deliver(old(View())) else old(View())
    {
      var n := |chains| - 1;
      if Remaining(chains[n]) < rxBytes {
        return false;
      }
      chains := chains[..n] + [Append(chains[n], rxFrame[..rxBytes])];
      rxBytes := 0;
      return true;
    }

    method TapRead(result: TapResult) returns (got: bool)
      requires Valid() && (result.Got? ==> |result.frame| <= MAX_BUFFER_SIZE)
      modifies this`rxBytes, this`read, rxFrame
      ensures Valid() && got == result.Got?
      ensures View() == if got then Take(old(View()), result.frame) else old(View())
    {
      match result {
        case Got(frame) =>
          forall i | 0 <= i < |frame| {
            rxFrame[i] := frame[i];
          }
          rxBytes := |frame|;
          read := if frame == [] then read else read + [frame];
          assert rxFrame[..rxBytes] == frame;
          return true;
        case _ =>
          return false;
      }
    }

    /** handle_rx_tap */
    method HandleRxTap(o: Offer)
      requires Valid() && OfferOk(o)
      modifies this, rxFrame
      ensures Valid() && View() == HandleTap(old(View()), o)
    {
      if o.rooms == [] {
        if o.deleteOk {
          tapEventEnabled := false;
        }
        return;
      }
      TakeChain(o.rooms[0]);
      if rxBytes != 0 {
        var fits := ReceiveFrame();
        if !fits {
          return;
        }
      }
      DrainTap(o.rooms[1..], o.taps);
    }

    method DrainTap(offered: seq<nat>, results: seq<TapResult>)
      requires Valid() && chains != []
      requires forall i :: 0 <= i < |results| && results[i].Got? ==> |results[i].frame| <= MAX_BUFFER_SIZE
      modifies this, rxFrame
      ensures Valid() && View() == Drain(old(View()), offered, results)
    {
      var rooms, taps := offered, results;
      while taps != []
        invariant Valid() && chains != []
        invariant forall i :: 0 <= i < |taps| && taps[i].Got? ==> |taps[i].frame| <= MAX_BUFFER_SIZE
        invariant Drain(View(), rooms, taps) == Drain(old(View()), offered, results)
        decreases |taps|
      {
        var got := TapRead(taps[0]);
        if !got {
          return;
        }
        if Remaining(chains[|chains| - 1]) < rxBytes {
          if rooms == [] {
            return;
          }
          TakeChain(rooms[0]);
          rooms := rooms[1..];
        }
        var fits := ReceiveFrame();
        if !fits {
          return;
        }
        taps := taps[1..];
      }
    }

    /** handle_rx_queue */
    method HandleRxQueue(o: Offer)
      requires Valid() && OfferOk(o)
      modifies this, rxFrame
      ensures Valid() && View() == HandleQueue(old(View()), o)
    {
      if !tapEventEnabled && o.addOk {
        tapEventEnabled := true;
      }
      if rxBytes != 0 {
        HandleRxTap(o);
      }
    }
  }
}

/**
 * Who is served next, and what each fd is given: the queue of clipboard
 * requests, the bytes received and written, and the end of each send, computed
 * from the events of a run (sommelier.cc).
 */
module SelectionQueue {
  import opened Machine
  import opened SelectionReceive

  // ----- the queue -----

  datatype Queue = Queue(active: Option<nat>, pending: seq<Request>, begun: seq<nat>, closed: seq<nat>)

  function QueueOf(s: State): Queue {
    Queue(s.active, s.pending, s.begun, s.closed)
  }

  function Fds(rs: seq<Request>): seq<nat> {
    if rs == [] then [] else Fds(rs[..|rs| - 1]) + [rs[|rs| - 1].fd]
  }

  /** The first request of the list that can begin. */
  function FirstOk(rs: seq<Request>): (k: nat)
    ensures k <= |rs| && (forall i :: 0 <= i < k ==> !rs[i].atomOk) && (k < |rs| ==> rs[k].atomOk)
  {
    if rs == [] || rs[0].atomOk then 0 else 1 + FirstOk(rs[1..])
  }

  /** The list behind the first k, and behind the one that is served, if there is one. */
  predicate ServedAt(p: seq<Request>, begun: seq<nat>, closed: seq<nat>, after: Queue, k: nat)
    requires k <= |p|
  {
    && after.closed == closed + Fds(p[..k])
    && if k < |p|
       then after.active == Some(p[k].fd) && after.pending == p[k + 1..] && after.begun == begun + [p[k].fd]
       else after.active == None && after.pending == [] && after.begun == begun
  }

  /**
   * The queue after the active fd was closed: the first request that can begin
   * is served, those before it are closed, those behind it go on waiting.
   */
  predicate ServesFirst(before: Queue, closed: seq<nat>, after: Queue) {
    ServedAt(before.pending, before.begun, closed, after, FirstOk(before.pending))
  }

  lemma {:induction false} FdsCons(r: Request, rs: seq<Request>)
    ensures Fds([r] + rs) == [r.fd] + Fds(rs)
    decreases |rs|
  {
    if rs == [] {
      assert [r] + rs == [r] && [r][..0] == [];
    } else {
      var all := [r] + rs;
      assert all[..|all| - 1] == [r] + rs[..|rs| - 1];
      FdsCons(r, rs[..|rs| - 1]);
    }
  }

  lemma {:induction false} FdsTake(p: seq<Request>, closed: seq<nat>, k: nat)
    requires k < |p|
    ensures closed + [p[0].fd] + Fds(p[1..][..k]) == closed + Fds(p[..k + 1])
  {
    FdsCons(p[0], p[1..][..k]);
    assert p[..k + 1] == [p[0]] + p[1..][..k];
  }

  lemma {:induction false} ServeOneMore(p: seq<Request>, begun: seq<nat>, closed: seq<nat>, after: Queue, k: nat)
    requires k < |p| && ServedAt(p[1..], begun, closed + [p[0].fd], after, k)
    ensures ServedAt(p, begun, closed, after, k + 1)
  {
    FdsTake(p, closed, k);
    if k + 1 < |p| {
      assert p[1..][k] == p[k + 1] && p[1..][k + 1..] == p[k + 2..];
    }
  }

  lemma {:induction false} ServeNow(s: State)
    requires s.active.None? && (s.pending == [] || s.pending[0].atomOk)
    ensures ServedAt(s.pending, s.begun, s.closed, QueueOf(ProcessPending(s)), 0)
  {
    assert s.pending[..0] == [] && s.closed + [] == s.closed;
  }

  lemma {:induction false} ProcessPendingServes(s: State)
    requires s.active.None?
    ensures ServesFirst(QueueOf(s), s.closed, QueueOf(ProcessPending(s)))
    decreases |s.pending|
  {
    if s.pending == [] || s.pending[0].atomOk {
      ServeNow(s);
    } else {
      var t := Begin(s.(pending := s.pending[1..]), s.pending[0]);
      ProcessPendingServes(t);
      ServeOneMore(s.pending, s.begun, s.closed, QueueOf(ProcessPending(t)), FirstOk(t.pending));
    }
  }

  /** The active fd is closed first. */
  function ClosedFirst(q: Queue): seq<nat> {
    if q.active.Some? then q.closed + [q.active.value] else q.closed
  }

  lemma {:induction false} CloseActiveServes(s: State)
    ensures ServesFirst(QueueOf(s), ClosedFirst(QueueOf(s)), QueueOf(CloseActive(s)))
  {
    ProcessPendingServes(s.(closed := ClosedFirst(QueueOf(s)), active := None));
  }

  lemma {:induction false} ServesOne(q: Queue, closed: seq<nat>, a: Queue, b: Queue)
    requires ServesFirst(q, closed, a) && ServesFirst(q, closed, b)
    ensures a == b
  {
  }

  lemma {:induction false} CloseSame(s: State, t: State)
    requires QueueOf(s) == QueueOf(t)
    ensures QueueOf(CloseActive(s)) == QueueOf(CloseActive(t))
  {
    CloseActiveServes(s);
    CloseActiveServes(t);
    ServesOne(QueueOf(s), ClosedFirst(QueueOf(s)), QueueOf(CloseActive(s)), QueueOf(CloseActive(t)));
  }

  // ----- what an event does -----

  /** The write an event makes: its result, and the bytes it could have taken. */
  datatype Writing = Writing(result: WriteResult, left: int)

  function Performed(s: State, e: Event): Option<Writing> {
    match e
    case SelectionNotify(Value(bytes), w) => Some(Writing(w, |bytes|))
    case NewValue(Some(v), _, w) => if s.incremental && v != [] then Some(Writing(w, |v|)) else None
    case Writable(w) => if s.reply.Some? then Some(Writing(w, |s.reply.value| - s.offset)) else None
    case _ => None
  }

  /** The flag when the write is made. */
  predicate GoesOn(s: State, e: Event) {
    s.incremental && !e.SelectionNotify?
  }

  /** The empty value that ends a transfer. */
  predicate EndMark(s: State, e: Event) {
    s.incremental && s.reply.None? && e.NewValue? && e.value == Some([])
  }

  /** The active fd is closed: its write failed, or completed a value with no more to follow, or the end came. */
  predicate Closes(s: State, e: Event) {
    match Performed(s, e)
    case Some(wr) => wr.result.WriteError? || (wr.result.count == wr.left && !GoesOn(s, e))
    case None => EndMark(s, e)
  }

  lemma {:induction false} WritableQueue(s: State, w: WriteResult)
    requires s.reply.Some? && s.offset <= |s.reply.value| && WriteOk(s, Left(s), w)
    ensures QueueOf(OnWritable(s, w))
         == if w.WriteError? || (w.count == Left(s) && !s.incremental) then QueueOf(CloseActive(s)) else QueueOf(s)
  {
    if w.WriteError? {
      CloseSame(s, Failed(s));
    } else if w.count == Left(s) && !s.incremental {
      CloseSame(s, Record(s, w.count).(reply := None, armed := false));
    }
  }

  lemma {:induction false} PropertyQueue(s: State, value: seq<byte>, data: bool, w: WriteResult)
    requires WriteOk(s, |value|, w)
    ensures QueueOf(WriteProperty(s, value, data, w))
         == if w.WriteError? || (w.count == |value| && !s.incremental) then QueueOf(CloseActive(s)) else QueueOf(s)
  {
    var u := Taken(s, value, data);
    WritableQueue(u, w);
    CloseSame(s, u);
  }

  lemma {:induction false} NewValueQueue(s: State, value: seq<byte>, announces: bool, w: WriteResult)
    requires WriteOk(s, |value|, w) && s.incremental && (s.armed <==> s.reply.Some?)
    ensures QueueOf(OnNewValue(s, value, announces, w))
         == if (if value != [] then w.WriteError? else s.reply.None?) then QueueOf(CloseActive(s)) else QueueOf(s)
  {
    if value != [] {
      var t := if announces && w.Wrote? then s.(announced := s.announced + ActiveSet(s)) else s;
      PropertyQueue(t, value, !announces, w);
      CloseSame(s, t);
    } else {
      CloseSame(s, OwnerEnds(s));
    }
  }

  /** Every event but a request either leaves the queue alone or closes the active fd and serves the next one. */
  lemma {:induction false} StepQueue(s: State, e: Event)
    requires Enabled(s, e) && (s.armed <==> s.reply.Some?) && !e.SendRequested?
    ensures QueueOf(Step(s, e)) == if Closes(s, e) then QueueOf(CloseActive(s)) else QueueOf(s)
  {
    match e
    case SelectionNotify(reply, w) =>
      if reply.Value? {
        var t := OwnerEnds(s).(incremental := false);
        PropertyQueue(t, reply.bytes, true, w);
        CloseSame(s, t);
      }
    case NewValue(v, announces, w) =>
      if s.incremental && v.Some? {
        NewValueQueue(s, v.value, announces, w);
      }
    case Writable(w) => WritableQueue(s, w);
    case OwnerChanged =>
    case OtherTransfer(_) =>
  }

  // ----- over runs -----

  /**
   * In every run, an event closes the active fd exactly when `Closes` says;
   * then the newest waiting request that can begin is served.
   */
  lemma {:induction false} NewestServedNext(es: seq<Event>, e: Event, fd: nat)
    requires Legal(es + [e]) && Legal(es) && Run(es).active == Some(fd)
    ensures fd in Run(es + [e]).closed <==> Closes(Run(es), e)
    ensures Closes(Run(es), e) ==>
              ServesFirst(QueueOf(Run(es)), Run(es).closed + [fd], QueueOf(Run(es + [e])))
    ensures !Closes(Run(es), e) ==> Run(es + [e]).active == Some(fd) && Run(es + [e]).closed == Run(es).closed
  {
    var s := Run(es);
    assert (es + [e])[..|es|] == es;
    RunKeeps(es);
    assert FdOk(s, fd, Undisturbed(es));
    if !e.SendRequested? {
      StepQueue(s, e);
      CloseActiveServes(s);
    }
  }

  /** The requests of a run, in order. */
  function Requests(es: seq<Event>): seq<Request> {
    if es == [] then []
    else
      var e := es[|es| - 1];
      Requests(es[..|es| - 1]) + (if e.SendRequested? then [e.request] else [])
  }

  /** The requests that are still to be served, newest first. */
  function Waiting(rs: seq<Request>, gone: set<nat>): seq<Request> {
    if rs == [] then []
    else
      var r := rs[|rs| - 1];
      (if r.fd in gone then [] else [r]) + Waiting(rs[..|rs| - 1], gone)
  }

  function Elements(xs: seq<nat>): set<nat> {
    set x | x in xs
  }

  /** Closed or active. */
  function Gone(q: Queue): set<nat> {
    Elements(q.closed) + (if q.active.Some? then {q.active.value} else {})
  }

  /** Nothing of the list in front is lost. */
  lemma {:induction false} WaitingFront(rs: seq<Request>, gone: set<nat>, x: nat)
    requires rs != [] && !InPending(Waiting(rs, gone), x)
    ensures !InPending(Waiting(rs[..|rs| - 1], gone), x) && (rs[|rs| - 1].fd == x ==> x in gone)
  {
    var ws, rest := Waiting(rs, gone), Waiting(rs[..|rs| - 1], gone);
    var d := |ws| - |rest|;
    assert forall i :: 0 <= i < |rest| ==> ws[i + d] == rest[i];
    if d == 1 {
      assert ws[0].fd == rs[|rs| - 1].fd;
    }
  }

  lemma {:induction false} NotWaiting(rs: seq<Request>, gone: set<nat>, x: nat)
    requires !InPending(Waiting(rs, gone), x)
    ensures Waiting(rs, gone + {x}) == Waiting(rs, gone)
  {
    if rs != [] {
      WaitingFront(rs, gone, x);
      NotWaiting(rs[..|rs| - 1], gone, x);
    }
  }

  /** Taking the newest waiting request off the list. */
  lemma {:induction false} WaitingTail(rs: seq<Request>, gone: set<nat>)
    requires Waiting(rs, gone) != [] && DistinctFds(Waiting(rs, gone))
    ensures Waiting(rs, gone + {Waiting(rs, gone)[0].fd}) == Waiting(rs, gone)[1..]
  {
    var r, front := rs[|rs| - 1], rs[..|rs| - 1];
    var ws := Waiting(rs, gone);
    if r.fd in gone {
      assert ws == Waiting(front, gone);
      WaitingTail(front, gone);
    } else {
      assert ws[1..] == Waiting(front, gone);
      TailPending(ws, r.fd);
      NotWaiting(front, gone, r.fd);
    }
  }

  lemma {:induction false} ElementsMore(xs: seq<nat>, x: nat)
    ensures Elements(xs + [x]) == Elements(xs) + {x}
  {
    assert forall y :: y in xs + [x] <==> y in xs || y == x;
  }

  lemma {:induction false} ProcessPendingWaits(s: State, rs: seq<Request>)
    requires s.active.None? && DistinctFds(s.pending) && s.pending == Waiting(rs, Elements(s.closed))
    ensures ProcessPending(s).pending == Waiting(rs, Gone(QueueOf(ProcessPending(s))))
    decreases |s.pending|
  {
    if s.pending == [] {
      assert Gone(QueueOf(s)) == Elements(s.closed);
    } else {
      var t := Begin(s.(pending := s.pending[1..]), s.pending[0]);
      WaitingTail(rs, Elements(s.closed));
      if s.pending[0].atomOk {
        assert Gone(QueueOf(t)) == Elements(s.closed) + {s.pending[0].fd};
      } else {
        ElementsMore(s.closed, s.pending[0].fd);
        ProcessPendingWaits(t, rs);
      }
    }
  }

  lemma {:induction false} CloseActiveWaits(s: State, rs: seq<Request>)
    requires DistinctFds(s.pending) && s.pending == Waiting(rs, Gone(QueueOf(s)))
    ensures CloseActive(s).pending == Waiting(rs, Gone(QueueOf(CloseActive(s))))
  {
    var t := s.(closed := ClosedFirst(QueueOf(s)), active := None);
    if s.active.Some? {
      ElementsMore(s.closed, s.active.value);
    }
    assert Gone(QueueOf(s)) == Elements(t.closed);
    ProcessPendingWaits(t, rs);
  }

  lemma {:induction false} RequestWaits(s: State, r: Request, rs: seq<Request>)
    requires Enabled(s, SendRequested(r)) && Invariant(s, false) && s.pending == Waiting(rs, Gone(QueueOf(s)))
    ensures var t := Step(s, SendRequested(r)); t.pending == Waiting(rs + [r], Gone(QueueOf(t)))
  {
    var t := Step(s, SendRequested(r));
    assert (rs + [r])[..|rs|] == rs && FdOk(s, r.fd, false);
    if s.active.Some? {
      assert Gone(QueueOf(t)) == Gone(QueueOf(s));
    } else {
      NotWaiting(rs, Gone(QueueOf(s)), r.fd);
      ElementsMore(s.closed, r.fd);
      assert Gone(QueueOf(t)) == Gone(QueueOf(s)) + {r.fd};
    }
  }

  /** In every run the list of requests is exactly those that are neither active nor closed, newest first. */
  lemma {:induction false} PendingIsWaiting(es: seq<Event>)
    requires Legal(es)
    ensures Run(es).pending == Waiting(Requests(es), Gone(QueueOf(Run(es))))
    decreases |es|
  {
    if es != [] {
      var front, e := es[..|es| - 1], es[|es| - 1];
      var s := Run(front);
      PendingIsWaiting(front);
      RunKeeps(front);
      WeakerInvariant(s, Undisturbed(front));
      if e.SendRequested? {
        RequestWaits(s, e.request, Requests(front));
      } else {
        assert Requests(front) + [] == Requests(front);
        StepQueue(s, e);
        if Closes(s, e) {
          CloseActiveWaits(s, Requests(front));
        }
      }
    }
  }

  /** Every fd that has begun, or waits, was asked for; every one closed unserved was asked for with an unknown atom. */
  predicate Accounted(q: Queue, rs: seq<Request>) {
    && (forall i :: 0 <= i < |q.pending| ==> q.pending[i] in rs)
    && (forall fd: nat :: fd in q.begun ==> Request(fd, true) in rs)
    && (forall fd: nat :: fd in q.closed && fd !in q.begun ==> Request(fd, false) in rs)
  }

  lemma {:induction false} ProcessPendingAccounts(s: State, rs: seq<Request>)
    requires Accounted(QueueOf(s), rs)
    ensures Accounted(QueueOf(ProcessPending(s)), rs)
    decreases |s.pending|
  {
    if s.pending != [] {
      var r := s.pending[0];
      var t := Begin(s.(pending := s.pending[1..]), r);
      assert r == Request(r.fd, r.atomOk);
      assert Accounted(QueueOf(t), rs);
      if !r.atomOk {
        ProcessPendingAccounts(t, rs);
      }
    }
  }

  lemma {:induction false} RunAccounted(es: seq<Event>)
    requires Legal(es)
    ensures Accounted(QueueOf(Run(es)), Requests(es))
    decreases |es|
  {
    if es != [] {
      var front, e := es[..|es| - 1], es[|es| - 1];
      var s := Run(front);
      RunAccounted(front);
      RunKeeps(front);
      if e.SendRequested? {
        assert e.request == Request(e.request.fd, e.request.atomOk);
      } else {
        assert Requests(front) + [] == Requests(front);
        StepQueue(s, e);
        if Closes(s, e) {
          if s.active.Some? {
            assert FdOk(s, s.active.value, Undisturbed(front));
          }
          ProcessPendingAccounts(s.(closed := ClosedFirst(QueueOf(s)), active := None), Requests(front));
        }
      }
    }
  }

  lemma {:induction false} AskedOnce(es: seq<Event>, r: Request)
    requires Legal(es) && r in Requests(es)
    ensures r.fd in Run(es).asked
    ensures forall q :: q in Requests(es) && q.fd == r.fd ==> q == r
    decreases |es|
  {
    var front, e := es[..|es| - 1], es[|es| - 1];
    AskedGrow(front, e);
    forall q | q in Requests(es) && q.fd == r.fd
      ensures q == r
    {
      if q in Requests(front) {
        AskedOnce(front, q);
      }
      if r in Requests(front) {
        AskedOnce(front, r);
      }
    }
    if r in Requests(front) {
      AskedOnce(front, r);
    }
  }

  lemma {:induction false} AskedGrow(es: seq<Event>, e: Event)
    requires Legal(es) && Enabled(Run(es), e)
    ensures forall fd: nat :: fd in Run(es).asked ==> fd in Step(Run(es), e).asked
  {
    forall fd: nat | fd in Run(es).asked
      ensures fd in Step(Run(es), e).asked
    {
      StepAsked(Run(es), e, fd);
    }
  }

  /** In every run a request whose atom is known is closed only after it was served; no other is ever served. */
  lemma {:induction false} ClosedWasServed(es: seq<Event>, fd: nat, atomOk: bool)
    requires Legal(es) && Request(fd, atomOk) in Requests(es)
    ensures fd in Run(es).closed && atomOk ==> fd in Run(es).begun
    ensures !atomOk ==> fd !in Run(es).begun
  {
    RunAccounted(es);
    AskedOnce(es, Request(fd, atomOk));
  }

  // ----- the bytes -----

  /** The data that an event hands to the active fd. */
  function DataOf(s: State, e: Event): seq<byte> {
    match e
    case SelectionNotify(Value(bytes), _) => bytes
    case NewValue(Some(v), announces, _) => if s.incremental && !announces then v else []
    case _ => []
  }

  /** The bytes that the fd's pipe took at an event. */
  function CountOf(s: State, e: Event): nat {
    match Performed(s, e)
    case Some(wr) => if wr.result.Wrote? then wr.result.count else 0
    case None => 0
  }

  /** What an event does to the bytes of the active fd; all other fds are left alone. */
  predicate Gives(s: State, e: Event, t: State, fd: nat) {
    if s.active == Some(fd) then
      Of(t.received, fd) == Of(s.received, fd) + DataOf(s, e) && Grown(s, t, fd, CountOf(s, e))
    else Of(t.received, fd) == Of(s.received, fd) && Grown(s, t, fd, 0)
  }

  lemma {:induction false} CloseKeepsBytes(s: State)
    ensures CloseActive(s).received == s.received && CloseActive(s).written == s.written
    ensures CloseActive(s).failed == s.failed && CloseActive(s).ended == s.ended
  {
    PendingKept(s.(closed := ClosedFirst(QueueOf(s)), active := None));
  }

  /** The fds whose write failed. */
  function Lost(s: State, w: WriteResult): set<nat> {
    if w.WriteError? then ActiveSet(s) else {}
  }

  /** What a write to the active fd adds for an fd. */
  function Took(s: State, w: WriteResult, fd: nat): nat {
    if w.Wrote? && s.active == Some(fd) then w.count else 0
  }

  /** The pipe of an fd has taken n more bytes. */
  predicate Grown(s: State, t: State, fd: nat, n: nat) {
    |Of(t.written, fd)| == |Of(s.written, fd)| + n && (s.active != Some(fd) ==> Of(t.written, fd) == Of(s.written, fd))
  }

  lemma {:induction false} WritableBytes(s: State, w: WriteResult, fd: nat)
    requires s.reply.Some? && s.offset <= |s.reply.value| && WriteOk(s, Left(s), w)
    ensures var t := OnWritable(s, w);
            && t.received == s.received && t.ended == s.ended && t.failed == s.failed + Lost(s, w)
            && Grown(s, t, fd, Took(s, w, fd))
  {
    match w
    case WriteError =>
      CloseKeepsBytes(Failed(s));
      assert Failed(s).failed == s.failed + ActiveSet(s);
    case Wrote(n) => CloseKeepsBytes(Record(s, n).(reply := None, armed := false));
  }

  lemma {:induction false} TakenGives(s: State, value: seq<byte>, data: bool, fd: nat)
    ensures var u := Taken(s, value, data);
            && u.active == s.active && u.written == s.written && u.failed == s.failed && u.ended == s.ended
            && Of(u.received, fd) == Of(s.received, fd) + (if s.active == Some(fd) && data then value else [])
  {
    assert Of(s.received, fd) + [] == Of(s.received, fd);
  }

  lemma {:induction false} PropertyBytes(s: State, value: seq<byte>, data: bool, w: WriteResult, fd: nat)
    requires WriteOk(s, |value|, w)
    ensures var t := WriteProperty(s, value, data, w);
            && t.ended == s.ended && t.failed == s.failed + Lost(s, w) && Grown(s, t, fd, Took(s, w, fd))
            && Of(t.received, fd) == Of(s.received, fd) + (if s.active == Some(fd) && data then value else [])
  {
    var u := Taken(s, value, data);
    TakenGives(s, value, data, fd);
    WritableBytes(u, w, fd);
    var v, t := OnWritable(u, w), WriteProperty(s, value, data, w);
    assert t.written == v.written && t.received == v.received && t.failed == v.failed && t.ended == v.ended;
  }

  /** The fds whose write failed at an event, and those whose owner ended the transfer. */
  function FailsAt(s: State, e: Event): set<nat> {
    match Performed(s, e)
    case Some(wr) => Lost(s, wr.result)
    case None => {}
  }

  function EndsAt(s: State, e: Event): set<nat> {
    if (e.SelectionNotify? && e.reply.Value?) || (EndMark(s, e) && !e.announces) then ActiveSet(s) else {}
  }

  /** What an event does to the books of the bytes, and to those of the outcomes. */
  predicate Booked(s: State, e: Event, t: State, fd: nat) {
    Gives(s, e, t, fd) && t.failed == s.failed + FailsAt(s, e) && t.ended == s.ended + EndsAt(s, e)
  }

  lemma {:induction false} NewValueBytes(s: State, v: seq<byte>, announces: bool, w: WriteResult, fd: nat)
    requires WriteOk(s, |v|, w) && s.incremental && v != []
    ensures Booked(s, NewValue(Some(v), announces, w), OnNewValue(s, v, announces, w), fd)
  {
    var t := if announces && w.Wrote? then s.(announced := s.announced + ActiveSet(s)) else s;
    PropertyBytes(t, v, !announces, w, fd);
    assert t.received == s.received && t.written == s.written && t.active == s.active && t.ended == s.ended;
    assert Lost(t, w) == FailsAt(s, NewValue(Some(v), announces, w));
  }

  lemma {:induction false} EndMarkBytes(s: State, announces: bool, w: WriteResult, fd: nat)
    requires WriteOk(s, 0, w) && s.incremental && (s.armed <==> s.reply.Some?)
    ensures Booked(s, NewValue(Some([]), announces, w), OnNewValue(s, [], announces, w), fd)
  {
    CloseKeepsBytes(if announces then s else OwnerEnds(s));
    assert Of(s.received, fd) + [] == Of(s.received, fd);
  }

  lemma {:induction false} NotifyBytes(s: State, bytes: seq<byte>, w: WriteResult, fd: nat)
    requires !s.aborted && WriteOk(s, |bytes|, w)
    ensures var e := SelectionNotify(Value(bytes), w); Booked(s, e, Step(s, e), fd)
  {
    var u, e := OwnerEnds(s).(incremental := false), SelectionNotify(Value(bytes), w);
    PropertyBytes(u, bytes, true, w, fd);
    assert Step(s, e) == WriteProperty(u, bytes, true, w);
    assert u.received == s.received && u.written == s.written && u.active == s.active && Lost(u, w) == FailsAt(s, e);
    assert u.ended == s.ended + EndsAt(s, e) && u.failed == s.failed;
  }

  lemma {:induction false} WritableBooked(s: State, w: WriteResult, fd: nat)
    requires Enabled(s, Writable(w))
    ensures Booked(s, Writable(w), Step(s, Writable(w)), fd)
  {
    WritableBytes(s, w, fd);
    assert Of(s.received, fd) + [] == Of(s.received, fd);
  }

  /** The events that hand over nothing and write nothing. */
  predicate Quiet(s: State, e: Event) {
    match e
    case SelectionNotify(reply, _) => !reply.Value?
    case NewValue(v, _, _) => !s.incremental || v.None?
    case Writable(_) => false
    case _ => true
  }

  lemma {:induction false} QuietBooked(s: State, e: Event, fd: nat)
    requires Enabled(s, e) && Quiet(s, e)
    ensures Booked(s, e, Step(s, e), fd)
  {
    assert Of(s.received, fd) + [] == Of(s.received, fd);
  }

  lemma {:induction false} StepBooked(s: State, e: Event, fd: nat)
    requires Enabled(s, e) && (s.armed <==> s.reply.Some?)
    ensures Booked(s, e, Step(s, e), fd)
  {
    if Quiet(s, e) {
      QuietBooked(s, e, fd);
    } else {
      match e
      case SelectionNotify(reply, w) => NotifyBytes(s, reply.bytes, w, fd);
      case NewValue(v, announces, w) =>
        if v.value == [] {
          EndMarkBytes(s, announces, w, fd);
        } else {
          NewValueBytes(s, v.value, announces, w, fd);
        }
      case Writable(w) => WritableBooked(s, w, fd);
    }
  }

  /** From the events: the data handed to an fd while it was active, and the number of bytes its pipe took. */
  function Handed(es: seq<Event>, fd: nat): (seq<byte>, nat)
    requires Legal(es)
    decreases |es|
  {
    if es == [] then ([], 0)
    else
      var s, e, (data, count) := Run(es[..|es| - 1]), es[|es| - 1], Handed(es[..|es| - 1], fd);
      if s.active == Some(fd) then (data + DataOf(s, e), count + CountOf(s, e)) else (data, count)
  }

  /** In every run that is what was received for the fd, and how much was written to it. */
  lemma {:induction false} BytesAsHanded(es: seq<Event>, fd: nat)
    requires Legal(es)
    ensures Of(Run(es).received, fd) == Handed(es, fd).0 && |Of(Run(es).written, fd)| == Handed(es, fd).1
    decreases |es|
  {
    if es != [] {
      var front := es[..|es| - 1];
      BytesAsHanded(front, fd);
      RunKeeps(front);
      StepBooked(Run(front), es[|es| - 1], fd);
    }
  }

  /** From the events: the fds whose write failed, and those whose owner ended the transfer. */
  function Outcomes(es: seq<Event>): (set<nat>, set<nat>)
    requires Legal(es)
    decreases |es|
  {
    if es == [] then ({}, {})
    else
      var s, e, (failed, ended) := Run(es[..|es| - 1]), es[|es| - 1], Outcomes(es[..|es| - 1]);
      (failed + FailsAt(s, e), ended + EndsAt(s, e))
  }

  lemma {:induction false} OutcomesInEveryRun(es: seq<Event>)
    requires Legal(es)
    ensures Outcomes(es) == (Run(es).failed, Run(es).ended)
    decreases |es|
  {
    if es != [] {
      var front := es[..|es| - 1];
      OutcomesInEveryRun(front);
      RunKeeps(front);
      StepBooked(Run(front), es[|es| - 1], 0);
    }
  }
}

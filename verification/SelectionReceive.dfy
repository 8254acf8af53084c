/**
 * Clipboard transfers from an X11 owner to Wayland readers: one active send,
 * a list of pending requests, and property values written to a file
 * descriptor in as many pieces as it takes (sommelier.cc).
 */
module SelectionReceive {
  import opened Machine

  /** A queued wl_data_source.send: the target fd, and whether its atom can be interned. */
  datatype Request = Request(fd: nat, atomOk: bool)

  /** Result of the write call. */
  datatype WriteResult = WriteError | Wrote(count: nat)

  /** What sl_get_selection_data finds in the selection property. */
  datatype Reply = NoReply | IncrType | Value(bytes: seq<byte>)

  /**
   * NewValue is a change of the selection property. Its value is data, or the
   * one of type INCR that announces an incremental transfer; the code does not
   * look at the type. OwnerChanged: another X client has taken the clipboard.
   * OtherTransfer: one in the other direction, which shares the incremental
   * flag, begins (false) or is announced (true).
   */
  datatype Event =
    | SendRequested(request: Request)
    | SelectionNotify(reply: Reply, write: WriteResult)
    | NewValue(value: Option<seq<byte>>, announces: bool, write: WriteResult)
    | Writable(write: WriteResult)
    | OwnerChanged
    | OtherTransfer(announced: bool)

  /**
   * The fields of sl_context, and what the run has done so far with each fd:
   * the data received for it and the bytes written to it, whether its owner
   * has ended the transfer, whether an announcement was written to it.
   * `aborted` records that one of the assertions on the write source failed.
   */
  datatype State = State(
    active: Option<nat>, pending: seq<Request>, incremental: bool,
    reply: Option<seq<byte>>, offset: nat, armed: bool,
    asked: seq<nat>, begun: seq<nat>, closed: seq<nat>, failed: set<nat>,
    received: map<nat, seq<byte>>, written: map<nat, seq<byte>>,
    ended: set<nat>, announced: set<nat>, aborted: bool)

  const Idle := State(None, [], false, None, 0, false, [], [], [], {}, map[], map[], {}, {}, false)

  function Of(m: map<nat, seq<byte>>, fd: nat): seq<byte> {
    if fd in m then m[fd] else []
  }

  /** Bytes a write may still take. */
  function Left(s: State): nat
    requires s.reply.Some? && s.offset <= |s.reply.value|
  {
    |s.reply.value| - s.offset
  }

  predicate WriteOk(s: State, left: nat, w: WriteResult) {
    if s.active.None? then w.WriteError? else w.Wrote? ==> w.count <= left
  }

  /** Writes take at most what is left, fds are new, and an aborted process does nothing. */
  predicate Enabled(s: State, e: Event) {
    && !s.aborted
    && match e
       case SendRequested(r) => r.fd !in s.asked
       case SelectionNotify(reply, w) => reply.Value? ==> WriteOk(s, |reply.bytes|, w)
       case NewValue(v, _, w) => v.Some? ==> WriteOk(s, |v.value|, w)
       case Writable(w) => s.armed && s.reply.Some? && s.offset <= |s.reply.value| && WriteOk(s, Left(s), w)
       case _ => true
  }

  /** sl_begin_data_source_send: true when the conversion was requested. */
  function Begin(s: State, r: Request): State {
    if r.atomOk then s.(active := Some(r.fd), begun := s.begun + [r.fd])
    else s.(closed := s.closed + [r.fd])
  }

  /** sl_process_data_source_send_pending_list: newest request first, until one can begin. */
  function ProcessPending(s: State): State
    decreases |s.pending|
  {
    if s.pending == [] then s
    else
      var r := s.pending[0];
      var t := Begin(s.(pending := s.pending[1..]), r);
      if r.atomOk then t else ProcessPending(t)
  }

  /** The active fd is closed and the next request, if any, takes its place. */
  function CloseActive(s: State): State {
    ProcessPending(s.(closed := if s.active.Some? then s.closed + [s.active.value] else s.closed, active := None))
  }

  function Record(s: State, n: nat): State
    requires s.reply.Some? && s.active.Some? && s.offset + n <= |s.reply.value|
  {
    var fd := s.active.value;
    s.(written := s.written[fd := Of(s.written, fd) + s.reply.value[s.offset..s.offset + n]])
  }

  /** sl_handle_selection_fd_writable. */
  function OnWritable(s: State, w: WriteResult): State
    requires s.reply.Some? && s.offset <= |s.reply.value| && WriteOk(s, Left(s), w)
  {
    match w
    case WriteError =>
      CloseActive(s.(reply := None, armed := false,
                     failed := if s.active.Some? then s.failed + {s.active.value} else s.failed))
    case Wrote(n) =>
      if n < Left(s) then Record(s, n).(offset := s.offset + n)
      else
        var t := Record(s, n).(reply := None, armed := false);
        if s.incremental then t else CloseActive(t)
  }

  function ActiveSet(s: State): set<nat> {
    if s.active.Some? then {s.active.value} else {}
  }

  /** The new value takes the place of whatever was in flight; data is received for the active fd. */
  function Taken(s: State, value: seq<byte>, data: bool): State {
    var given := if data && s.active.Some?
                 then s.(received := s.received[s.active.value := Of(s.received, s.active.value) + value]) else s;
    given.(reply := Some(value), offset := 0)
  }

  /** sl_write_selection_property; its assertion fails when a write source is already installed. */
  function WriteProperty(s: State, value: seq<byte>, data: bool, w: WriteResult): State
    requires WriteOk(s, |value|, w)
  {
    var t := OnWritable(Taken(s, value, data), w);
    if t.reply.None? then t else t.(armed := true, aborted := t.armed)
  }

  /** The owner has sent all of the transfer. */
  function OwnerEnds(s: State): State {
    s.(ended := s.ended + ActiveSet(s))
  }

  /** A new value of the property, with the flag set. */
  function OnNewValue(s: State, value: seq<byte>, announces: bool, w: WriteResult): State
    requires WriteOk(s, |value|, w)
  {
    if value != [] then
      var t := if announces && w.Wrote? then s.(announced := s.announced + ActiveSet(s)) else s;
      WriteProperty(t, value, !announces, w)
    else if s.armed then s.(aborted := true)
    else CloseActive(if announces then s else OwnerEnds(s))
  }

  function Step(s: State, e: Event): State
    requires Enabled(s, e)
  {
    match e
    case SendRequested(r) =>
      var t := s.(asked := s.asked + [r.fd]);
      if s.active.None? then Begin(t, r) else t.(pending := [r] + s.pending)
    case SelectionNotify(reply, w) =>
      (match reply
       case NoReply => s
       case IncrType => s.(incremental := true)
       case Value(bytes) => WriteProperty(OwnerEnds(s).(incremental := false), bytes, true, w))
    case NewValue(v, announces, w) => if s.incremental && v.Some? then OnNewValue(s, v.value, announces, w) else s
    case Writable(w) => OnWritable(s, w)
    case OwnerChanged => s.(incremental := false)
    case OtherTransfer(announced) => s.(incremental := announced)
  }

  // ----- where every fd is, and what was written to it -----

  predicate InPending(rs: seq<Request>, fd: nat) {
    exists i :: 0 <= i < |rs| && rs[i].fd == fd
  }

  predicate DistinctFds(rs: seq<Request>) {
    forall i, j :: 0 <= i < j < |rs| ==> rs[i].fd != rs[j].fd
  }

  predicate NoDup(xs: seq<nat>) {
    forall i, j :: 0 <= i < j < |xs| ==> xs[i] != xs[j]
  }

  /** An fd handed in is waiting, active or closed, and only one of these; one not handed in is none. */
  predicate Placed(s: State, fd: nat) {
    && (fd in s.asked <==> InPending(s.pending, fd) || s.active == Some(fd) || fd in s.closed)
    && !(InPending(s.pending, fd) && s.active == Some(fd))
    && !(InPending(s.pending, fd) && fd in s.closed)
    && !(s.active == Some(fd) && fd in s.closed)
  }

  /** An fd begins only when it leaves the list; the active one has begun. */
  predicate BegunOk(s: State, fd: nat) {
    && (fd in s.begun ==> s.active == Some(fd) || fd in s.closed)
    && (s.active == Some(fd) ==> fd in s.begun && fd !in s.failed)
    && (fd in s.received || fd in s.failed ==> fd in s.begun)
  }

  /**
   * The bytes written to an fd, with those of the value still in flight, are
   * the data received for it. Once it is closed, other than by a write error,
   * they are all that its owner sent.
   */
  predicate StreamOk(s: State, fd: nat) {
    if s.active == Some(fd) then
      if s.reply.Some? && s.offset <= |s.reply.value|
      then Of(s.written, fd) + s.reply.value[s.offset..] == Of(s.received, fd)
      else Of(s.written, fd) == Of(s.received, fd)
    else
      && Of(s.written, fd) <= Of(s.received, fd)
      && (fd !in s.failed ==> Of(s.written, fd) == Of(s.received, fd) && (fd in s.begun ==> fd in s.ended))
  }

  /** The place of an fd and, in a clean state, its bytes. */
  predicate FdOk(s: State, fd: nat, clean: bool) {
    Placed(s, fd) && BegunOk(s, fd) && (clean ==> StreamOk(s, fd))
  }

  /** A list of requests exists only behind an active send, and a value in flight only with one. */
  predicate OneActive(s: State) {
    && (s.pending != [] ==> s.active.Some?)
    && (s.reply.Some? ==> s.active.Some? && s.offset < |s.reply.value|)
    && (s.armed <==> s.reply.Some?)
  }

  /** The books: every fd is in one place, and is begun and closed at most once. */
  ghost predicate Ledger(s: State, clean: bool) {
    && DistinctFds(s.pending) && NoDup(s.begun) && NoDup(s.closed)
    && (forall fd: nat :: FdOk(s, fd, clean))
  }

  ghost predicate Invariant(s: State, clean: bool) {
    OneActive(s) && Ledger(s, clean) && (clean ==> !s.aborted && s.announced == {})
  }

  /** The owner has more to send to the active fd. */
  predicate Unfinished(s: State) {
    s.active.Some? && s.active.value !in s.ended
  }

  /** The write completes a value that is not the owner's last, and the flag is clear: the fd is closed. */
  predicate ClosesEarly(s: State, w: WriteResult) {
    && s.reply.Some? && w.Wrote? && s.offset + w.count == |s.reply.value|
    && !s.incremental && Unfinished(s)
  }

  /**
   * What breaks a stream: a value taken while another one is in flight, or an
   * announcement taken as data, unless the write fails, which closes the fd;
   * an empty value then, which is taken for the end; and a value that is
   * complete only after the flag was cleared, when more would have followed.
   */
  predicate Harms(s: State, e: Event) {
    match e
    case SelectionNotify(reply, w) => reply.Value? && s.reply.Some? && w.Wrote?
    case NewValue(v, announces, w) =>
      s.incremental && v.Some? &&
      if v.value != [] then (s.reply.Some? || announces) && w.Wrote?
      else s.reply.Some? || (announces && Unfinished(s))
    case Writable(w) => ClosesEarly(s, w)
    case _ => false
  }

  // ----- each step keeps the books -----

  lemma {:induction false} TailPending(rs: seq<Request>, fd: nat)
    requires rs != [] && DistinctFds(rs)
    ensures DistinctFds(rs[1..])
    ensures InPending(rs[1..], fd) <==> InPending(rs, fd) && fd != rs[0].fd
  {
    if i :| 0 <= i < |rs| && rs[i].fd == fd && i > 0 {
      assert rs[1..][i - 1].fd == fd;
    }
    if i :| 0 <= i < |rs[1..]| && rs[1..][i].fd == fd {
      assert rs[i + 1].fd == fd;
    }
  }

  lemma {:induction false} AppendNoDup(xs: seq<nat>, x: nat)
    requires NoDup(xs) && x !in xs
    ensures NoDup(xs + [x])
  {
  }

  lemma {:induction false} PopPlaced(s: State, fd: nat)
    requires DistinctFds(s.pending) && Placed(s, fd) && BegunOk(s, fd) && s.active.None? && s.pending != []
    ensures var t := Begin(s.(pending := s.pending[1..]), s.pending[0]); Placed(t, fd) && BegunOk(t, fd)
  {
    TailPending(s.pending, fd);
    assert InPending(s.pending, s.pending[0].fd);
  }

  lemma {:induction false} PopStream(s: State, fd: nat)
    requires Placed(s, fd) && BegunOk(s, fd) && StreamOk(s, fd) && s.active.None? && s.reply.None? && s.pending != []
    ensures StreamOk(Begin(s.(pending := s.pending[1..]), s.pending[0]), fd)
  {
    assert InPending(s.pending, s.pending[0].fd);
  }

  /** Taking the first request off the list and beginning (or closing) it. */
  lemma {:induction false} PopKeeps(s: State, clean: bool)
    requires Ledger(s, clean) && s.active.None? && s.reply.None? && s.pending != []
    ensures Ledger(Begin(s.(pending := s.pending[1..]), s.pending[0]), clean)
  {
    var r := s.pending[0];
    assert InPending(s.pending, r.fd);
    assert FdOk(s, r.fd, clean);
    TailPending(s.pending, r.fd);
    AppendNoDup(s.closed, r.fd);
    AppendNoDup(s.begun, r.fd);
    forall fd: nat
      ensures FdOk(Begin(s.(pending := s.pending[1..]), r), fd, clean)
    {
      assert FdOk(s, fd, clean);
      PopPlaced(s, fd);
      if clean {
        PopStream(s, fd);
      }
    }
  }

  lemma {:induction false} ProcessPendingKeeps(s: State, clean: bool)
    requires Ledger(s, clean) && s.active.None? && s.reply.None? && !s.armed && !s.aborted
    requires clean ==> s.announced == {}
    ensures Invariant(ProcessPending(s), clean) && ProcessPending(s).reply.None?
    decreases |s.pending|
  {
    if s.pending != [] {
      PopKeeps(s, clean);
      if !s.pending[0].atomOk {
        ProcessPendingKeeps(Begin(s.(pending := s.pending[1..]), s.pending[0]), clean);
      }
    }
  }

  /** What was written to the fd is a prefix of what was received for it, and all of it unless a write failed. */
  predicate SettledStream(s: State, fd: nat) {
    && Of(s.written, fd) <= Of(s.received, fd)
    && (fd !in s.failed ==> Of(s.written, fd) == Of(s.received, fd) && (fd in s.begun ==> fd in s.ended))
  }

  /** The same while the fd is active: a value may still be in flight. */
  predicate StreamSoFar(s: State, fd: nat) {
    if s.active == Some(fd) then Of(s.written, fd) <= Of(s.received, fd) else SettledStream(s, fd)
  }

  /** The books of an fd when no value is in flight; the active one may have failed. */
  predicate Settled(s: State, fd: nat, clean: bool) {
    && Placed(s, fd)
    && (fd in s.begun ==> s.active == Some(fd) || fd in s.closed)
    && (s.active == Some(fd) ==> fd in s.begun)
    && (fd in s.received || fd in s.failed ==> fd in s.begun)
    && (clean ==> SettledStream(s, fd))
  }

  lemma {:induction false} CloseActiveKeeps(s: State, clean: bool)
    requires DistinctFds(s.pending) && NoDup(s.begun) && NoDup(s.closed)
    requires s.reply.None? && !s.armed && !s.aborted && (s.active.None? ==> s.pending == [])
    requires clean ==> s.announced == {}
    requires forall fd: nat :: Settled(s, fd, clean)
    ensures Invariant(CloseActive(s), clean) && CloseActive(s).reply.None?
  {
    var t := s.(closed := if s.active.Some? then s.closed + [s.active.value] else s.closed, active := None);
    if s.active.Some? {
      assert Settled(s, s.active.value, clean);
      AppendNoDup(s.closed, s.active.value);
    }
    forall fd: nat
      ensures FdOk(t, fd, clean)
    {
      assert Settled(s, fd, clean);
    }
    ProcessPendingKeeps(t, clean);
  }

  /** A write of n bytes moves them from the value in flight to the fd. */
  lemma {:induction false} RecordStream(s: State, n: nat)
    requires s.reply.Some? && s.active.Some? && s.offset + n <= |s.reply.value|
    requires StreamOk(s, s.active.value)
    ensures Of(Record(s, n).written, s.active.value) + s.reply.value[s.offset + n..] == Of(s.received, s.active.value)
    ensures forall fd: nat :: fd != s.active.value ==> Of(Record(s, n).written, fd) == Of(s.written, fd)
  {
    var v := s.reply.value;
    assert v[s.offset..] == v[s.offset..s.offset + n] + v[s.offset + n..];
    var w := Of(s.written, s.active.value);
    assert w + v[s.offset..s.offset + n] + v[s.offset + n..] == w + v[s.offset..];
  }

  lemma {:induction false} PartialWriteKeeps(s: State, n: nat, clean: bool)
    requires Ledger(s, clean) && s.reply.Some? && s.active.Some? && s.offset + n < |s.reply.value|
    ensures Ledger(Record(s, n).(offset := s.offset + n), clean)
  {
    var t := Record(s, n).(offset := s.offset + n);
    assert FdOk(s, s.active.value, clean);
    if clean {
      RecordStream(s, n);
    }
    forall fd: nat
      ensures FdOk(t, fd, clean)
    {
      assert FdOk(s, fd, clean);
    }
  }

  lemma {:induction false} FullWriteKeeps(s: State, clean: bool)
    requires Ledger(s, clean) && s.reply.Some? && s.active.Some? && s.offset <= |s.reply.value|
    ensures Ledger(Record(s, Left(s)).(reply := None, armed := false), clean)
  {
    var t := Record(s, Left(s)).(reply := None, armed := false);
    assert FdOk(s, s.active.value, clean);
    if clean {
      RecordStream(s, Left(s));
      assert s.reply.value[s.offset + Left(s)..] == [];
    }
    forall fd: nat
      ensures FdOk(t, fd, clean)
    {
      assert FdOk(s, fd, clean);
    }
  }

  lemma {:induction false} CloseKeeps(s: State, clean: bool)
    requires Invariant(s, clean) && s.reply.None? && !s.aborted
    requires clean ==> !Unfinished(s)
    ensures Invariant(CloseActive(s), clean) && CloseActive(s).reply.None?
  {
    forall fd: nat
      ensures Settled(s, fd, clean)
    {
      assert FdOk(s, fd, clean);
    }
    CloseActiveKeeps(s, clean);
  }

  function Failed(s: State): State {
    s.(reply := None, armed := false, failed := if s.active.Some? then s.failed + {s.active.value} else s.failed)
  }

  /** A failed write needs only the prefix of its fd. */
  lemma {:induction false} ErrorKeeps(s: State, clean: bool)
    requires DistinctFds(s.pending) && NoDup(s.begun) && NoDup(s.closed) && !s.aborted
    requires s.active.None? ==> s.pending == []
    requires clean ==> s.announced == {}
    requires forall fd: nat :: FdOk(s, fd, false)
    requires clean ==> forall fd: nat :: StreamSoFar(s, fd)
    ensures Invariant(CloseActive(Failed(s)), clean) && CloseActive(Failed(s)).reply.None?
  {
    var t := Failed(s);
    forall fd: nat
      ensures Settled(t, fd, clean)
    {
      assert FdOk(s, fd, false);
      assert clean ==> StreamSoFar(s, fd);
    }
    CloseActiveKeeps(t, clean);
  }

  lemma {:induction false} InFlightPrefix(s: State, fd: nat)
    requires StreamOk(s, fd)
    ensures StreamSoFar(s, fd)
  {
  }

  lemma {:induction false} OnWritableKeeps(s: State, w: WriteResult, clean: bool)
    requires Ledger(s, clean) && s.reply.Some? && s.offset <= |s.reply.value| && WriteOk(s, Left(s), w)
    requires !s.aborted && (s.active.None? ==> s.pending == [])
    requires clean ==> !ClosesEarly(s, w) && s.announced == {}
    ensures var t := OnWritable(s, w);
            if t.reply.None? then Invariant(t, clean)
            else && Ledger(t, clean) && t.active.Some? && t.offset < |t.reply.value|
                 && t.armed == s.armed && !t.aborted && t.announced == s.announced
  {
    match w
    case WriteError =>
      forall fd: nat
        ensures FdOk(s, fd, false)
        ensures clean ==> StreamSoFar(s, fd)
      {
        assert FdOk(s, fd, clean);
        if clean {
          InFlightPrefix(s, fd);
        }
      }
      ErrorKeeps(s, clean);
    case Wrote(n) =>
      if n < Left(s) {
        PartialWriteKeeps(s, n, clean);
      } else {
        FullWriteKeeps(s, clean);
        if !s.incremental {
          CloseKeeps(Record(s, n).(reply := None, armed := false), clean);
        }
      }
  }

  /** Taking data while nothing is in flight keeps every stream; otherwise only the places. */
  lemma {:induction false} TakenKeeps(s: State, value: seq<byte>, data: bool, clean: bool)
    requires Invariant(s, clean)
    ensures Ledger(Taken(s, value, data), clean && data && s.reply.None?)
  {
    assert value[0..] == value;
    var still := clean && data && s.reply.None?;
    forall fd: nat
      ensures FdOk(Taken(s, value, data), fd, still)
    {
      assert FdOk(s, fd, clean);
    }
  }

  lemma {:induction false} ArmedIrrelevant(s: State, aborted: bool, clean: bool)
    requires Ledger(s, clean)
    ensures Ledger(s.(armed := true, aborted := aborted), clean)
  {
    forall fd: nat
      ensures FdOk(s.(armed := true, aborted := aborted), fd, clean)
    {
      assert FdOk(s, fd, clean);
    }
  }

  lemma {:induction false} WritePropertyKeeps(s: State, value: seq<byte>, data: bool, w: WriteResult, clean: bool)
    requires Invariant(s, clean) && !s.aborted && WriteOk(s, |value|, w) && (clean ==> s.incremental || !Unfinished(s))
    ensures Invariant(WriteProperty(s, value, data, w), clean && data && s.reply.None?)
  {
    var still := clean && data && s.reply.None?;
    TakenKeeps(s, value, data, clean);
    OnWritableKeeps(Taken(s, value, data), w, still);
    var t := OnWritable(Taken(s, value, data), w);
    if t.reply.Some? {
      ArmedIrrelevant(t, t.armed, still);
    }
  }

  /** A value whose write fails leaves every stream a prefix, even if another was in flight. */
  lemma {:induction false} OverwriteFails(s: State, value: seq<byte>, data: bool, clean: bool)
    requires Invariant(s, clean) && !s.aborted
    ensures Invariant(WriteProperty(s, value, data, WriteError), clean)
  {
    var u := Taken(s, value, data);
    TakenKeeps(s, value, data, clean);
    forall fd: nat
      ensures FdOk(u, fd, false)
      ensures clean ==> StreamSoFar(u, fd)
    {
      assert FdOk(s, fd, clean) && FdOk(u, fd, clean && data && s.reply.None?);
      if clean {
        InFlightPrefix(s, fd);
      }
    }
    ErrorKeeps(u, clean);
  }

  lemma {:induction false} QueueKeeps(s: State, r: Request, clean: bool)
    requires Invariant(s, clean) && r.fd !in s.asked && s.active.Some? && !s.aborted
    ensures Invariant(Step(s, SendRequested(r)), clean)
  {
    var t := Step(s, SendRequested(r));
    assert FdOk(s, r.fd, clean);
    assert t.pending[1..] == s.pending && t.pending[0] == r;
    assert DistinctFds(t.pending) by {
      assert forall i :: 0 <= i < |s.pending| ==> InPending(s.pending, s.pending[i].fd);
    }
    forall fd: nat
      ensures FdOk(t, fd, clean)
    {
      assert FdOk(s, fd, clean);
      TailPending(t.pending, fd);
      assert InPending(t.pending, r.fd);
    }
  }

  lemma {:induction false} RequestKeeps(s: State, r: Request, clean: bool)
    requires Invariant(s, clean) && r.fd !in s.asked && !s.aborted
    ensures Invariant(Step(s, SendRequested(r)), clean)
  {
    if s.active.Some? {
      QueueKeeps(s, r, clean);
    } else {
      var t := Step(s, SendRequested(r));
      assert FdOk(s, r.fd, clean);
      AppendNoDup(s.begun, r.fd);
      AppendNoDup(s.closed, r.fd);
      forall fd: nat
        ensures FdOk(t, fd, clean)
      {
        assert FdOk(s, fd, clean);
      }
    }
  }

  lemma {:induction false} FlagIrrelevant(s: State, flag: bool, clean: bool)
    requires Invariant(s, clean)
    ensures Invariant(s.(incremental := flag), clean)
  {
    forall fd: nat
      ensures FdOk(s.(incremental := flag), fd, clean)
    {
      assert FdOk(s, fd, clean);
    }
  }

  lemma {:induction false} OwnerEndsKeeps(s: State, clean: bool)
    requires Invariant(s, clean)
    ensures Invariant(OwnerEnds(s), clean)
  {
    forall fd: nat
      ensures FdOk(OwnerEnds(s), fd, clean)
    {
      assert FdOk(s, fd, clean);
    }
  }

  lemma {:induction false} AnnouncedIrrelevant(s: State, clean: bool, announced: set<nat>)
    requires Invariant(s, clean)
    ensures Invariant(s.(announced := announced), false)
  {
    forall fd: nat
      ensures FdOk(s.(announced := announced), fd, false)
    {
      assert FdOk(s, fd, clean);
    }
  }

  /** Data, announced or not by the flag. */
  lemma {:induction false} ValueKeeps(s: State, value: seq<byte>, w: WriteResult, clean: bool)
    requires Invariant(s, clean) && !s.aborted && WriteOk(s, |value|, w) && (s.incremental || !Unfinished(s))
    ensures Invariant(WriteProperty(s, value, true, w), clean && (s.reply.None? || w.WriteError?))
  {
    if w.WriteError? {
      OverwriteFails(s, value, true, clean);
    } else {
      WritePropertyKeeps(s, value, true, w, clean);
    }
  }

  lemma {:induction false} AnnouncementKeeps(s: State, value: seq<byte>, w: WriteResult, clean: bool)
    requires Invariant(s, clean) && !s.aborted && WriteOk(s, |value|, w) && value != []
    ensures Invariant(OnNewValue(s, value, true, w), clean && w.WriteError?)
  {
    if w.WriteError? {
      OverwriteFails(s, value, false, clean);
    } else {
      var more := s.announced + ActiveSet(s);
      AnnouncedIrrelevant(s, clean, more);
      WritePropertyKeeps(s.(announced := more), value, false, w, false);
    }
  }

  lemma {:induction false} AbortKeeps(s: State, clean: bool)
    requires Invariant(s, clean)
    ensures Invariant(s.(aborted := true), false)
  {
    forall fd: nat
      ensures FdOk(s.(aborted := true), fd, false)
    {
      assert FdOk(s, fd, clean);
    }
  }

  lemma {:induction false} WeakerInvariant(s: State, clean: bool)
    requires Invariant(s, clean)
    ensures Invariant(s, false)
  {
    forall fd: nat
      ensures FdOk(s, fd, false)
    {
      assert FdOk(s, fd, clean);
    }
  }

  /** The empty value: the end of the transfer, unless it announces one. */
  lemma {:induction false} EmptyValueKeeps(s: State, announces: bool, w: WriteResult, clean: bool)
    requires Invariant(s, clean) && !s.aborted && WriteOk(s, 0, w)
    ensures Invariant(OnNewValue(s, [], announces, w), clean && s.reply.None? && (!announces || !Unfinished(s)))
  {
    if s.armed {
      AbortKeeps(s, clean);
    } else if announces {
      WeakerInvariant(s, clean);
      CloseKeeps(s, clean && !Unfinished(s));
    } else {
      OwnerEndsKeeps(s, clean);
      CloseKeeps(OwnerEnds(s), clean);
    }
  }

  lemma {:induction false} NewValueKeeps(s: State, value: seq<byte>, announces: bool, w: WriteResult, clean: bool)
    requires Invariant(s, clean) && !s.aborted && WriteOk(s, |value|, w) && s.incremental
    ensures Invariant(OnNewValue(s, value, announces, w), clean && !Harms(s, NewValue(Some(value), announces, w)))
  {
    if value == [] {
      EmptyValueKeeps(s, announces, w, clean);
    } else if announces {
      AnnouncementKeeps(s, value, w, clean);
    } else {
      ValueKeeps(s, value, w, clean);
    }
  }

  /** Every event keeps the books, and every event that does no harm keeps the streams. */
  lemma {:induction false} StepKeeps(s: State, e: Event, clean: bool)
    requires Invariant(s, clean) && Enabled(s, e)
    ensures Invariant(Step(s, e), clean && !Harms(s, e))
  {
    match e
    case SendRequested(r) => RequestKeeps(s, r, clean);
    case SelectionNotify(reply, w) =>
      FlagIrrelevant(s, true, clean);
      if reply.Value? {
        OwnerEndsKeeps(s, clean);
        FlagIrrelevant(OwnerEnds(s), false, clean);
        ValueKeeps(OwnerEnds(s).(incremental := false), reply.bytes, w, clean);
      }
    case NewValue(v, announces, w) =>
      if s.incremental && v.Some? {
        NewValueKeeps(s, v.value, announces, w, clean);
      }
    case Writable(w) =>
      WeakerInvariant(s, clean);
      OnWritableKeeps(s, w, clean && !Harms(s, e));
    case OwnerChanged => FlagIrrelevant(s, false, clean);
    case OtherTransfer(announced) => FlagIrrelevant(s, announced, clean);
  }

  // ----- whole runs -----

  predicate Legal(es: seq<Event>)
    decreases |es|, 0
  {
    es != [] ==> Legal(es[..|es| - 1]) && Enabled(Run(es[..|es| - 1]), es[|es| - 1])
  }

  function Run(es: seq<Event>): State
    requires Legal(es)
    decreases |es|, 1
  {
    if es == [] then Idle else Step(Run(es[..|es| - 1]), es[|es| - 1])
  }

  /** No event of the run does harm. */
  predicate Undisturbed(es: seq<Event>)
    requires Legal(es)
    decreases |es|
  {
    es != [] ==> Undisturbed(es[..|es| - 1]) && !Harms(Run(es[..|es| - 1]), es[|es| - 1])
  }

  lemma {:induction false} RunKeeps(es: seq<Event>)
    requires Legal(es)
    ensures Invariant(Run(es), Undisturbed(es))
    decreases |es|
  {
    if es != [] {
      RunKeeps(es[..|es| - 1]);
      StepKeeps(Run(es[..|es| - 1]), es[|es| - 1], Undisturbed(es[..|es| - 1]));
    }
  }

  /**
   * In every run every fd handed in is waiting, active or closed, begun at most
   * once and closed at most once; requests wait only while a send is active.
   */
  lemma {:induction false} EveryFdAccounted(es: seq<Event>, fd: nat)
    requires Legal(es)
    ensures Placed(Run(es), fd) && NoDup(Run(es).begun) && NoDup(Run(es).closed)
    ensures fd in Run(es).begun ==> Run(es).active == Some(fd) || fd in Run(es).closed
    ensures Run(es).pending != [] ==> Run(es).active.Some?
    ensures Run(es).armed <==> Run(es).reply.Some?
  {
    RunKeeps(es);
    assert FdOk(Run(es), fd, Undisturbed(es));
  }

  /**
   * Under any partial writes, what an fd got is a prefix of the data received
   * for it, in order, and of nothing else; an fd closed without a write error
   * got all that its owner sent; and no assertion fails.
   */
  lemma {:induction false} ByteIntegrity(es: seq<Event>, fd: nat)
    requires Legal(es) && Undisturbed(es)
    ensures Of(Run(es).written, fd) <= Of(Run(es).received, fd)
    ensures fd in Run(es).closed && fd !in Run(es).failed ==> Of(Run(es).written, fd) == Of(Run(es).received, fd)
    ensures fd in Run(es).closed && fd in Run(es).begun && fd !in Run(es).failed ==> fd in Run(es).ended
    ensures fd !in Run(es).announced && !Run(es).aborted
  {
    RunKeeps(es);
    var s := Run(es);
    assert FdOk(s, fd, true);
    InFlightPrefix(s, fd);
  }

  // ----- exactly when the bytes arrive as they should -----

  /** Every stream is right, no announcement was written, and no assertion has failed. */
  ghost predicate Intact(s: State) {
    !s.aborted && s.announced == {} && forall fd: nat :: StreamOk(s, fd)
  }

  lemma {:induction false} PendingKept(s: State)
    requires s.active.None?
    ensures var t := ProcessPending(s);
            && t.received == s.received && t.written == s.written && t.failed == s.failed
            && t.aborted == s.aborted && t.incremental == s.incremental && t.reply == s.reply
            && t.ended == s.ended && t.announced == s.announced && (forall fd :: fd in s.begun ==> fd in t.begun)
            && (t.active.Some? ==> InPending(s.pending, t.active.value))
    decreases |s.pending|
  {
    if s.pending != [] {
      assert InPending(s.pending, s.pending[0].fd);
      if !s.pending[0].atomOk {
        var u := Begin(s.(pending := s.pending[1..]), s.pending[0]);
        PendingKept(u);
        var t := ProcessPending(u);
        if t.active.Some? {
          var i :| 0 <= i < |u.pending| && u.pending[i].fd == t.active.value;
          assert s.pending[i + 1].fd == t.active.value;
        }
      }
    }
  }

  /** A complete write over a value in flight loses what was left of that value. */
  lemma {:induction false} OverwriteLoses(s: State, value: seq<byte>)
    requires Invariant(s, true) && s.reply.Some?
    ensures s.active.Some?
    ensures var u, fd := Taken(s, value, true), s.active.value;
            |Of(Record(u, |value|).written, fd)| < |Of(u.received, fd)|
  {
    var fd := s.active.value;
    assert FdOk(s, fd, true);
    assert |Of(s.received, fd)| == |Of(s.written, fd)| + |s.reply.value[s.offset..]|;
  }

  lemma {:induction false} OverwriteBreaks(s: State, value: seq<byte>, n: nat)
    requires Invariant(s, true) && s.reply.Some? && n <= |value|
    ensures !Intact(WriteProperty(s, value, true, Wrote(n)))
  {
    var u, fd := Taken(s, value, true), s.active.value;
    OverwriteLoses(s, value);
    assert FdOk(s, fd, true);
    if n == |value| {
      var t := Record(u, n).(reply := None, armed := false);
      if s.incremental {
        assert !StreamOk(t, fd);
      } else {
        var v := t.(closed := t.closed + [fd], active := None);
        PendingKept(v);
        assert !StreamOk(ProcessPending(v), fd);
      }
    }
  }

  lemma {:induction false} WritableKeepsAnnounced(s: State, w: WriteResult)
    requires s.reply.Some? && s.offset <= |s.reply.value| && WriteOk(s, Left(s), w)
    ensures OnWritable(s, w).announced == s.announced && OnWritable(s, w).incremental == s.incremental
  {
    var t := if w.WriteError? then Failed(s) else Record(s, w.count).(reply := None, armed := false);
    PendingKept(t.(closed := if t.active.Some? then t.closed + [t.active.value] else t.closed, active := None));
  }

  lemma {:induction false} PropertyKeepsFlag(s: State, value: seq<byte>, data: bool, w: WriteResult)
    requires WriteOk(s, |value|, w)
    ensures WriteProperty(s, value, data, w).announced == s.announced
    ensures WriteProperty(s, value, data, w).incremental == s.incremental
  {
    WritableKeepsAnnounced(Taken(s, value, data), w);
  }

  lemma {:induction false} AnnouncementBreaks(s: State, value: seq<byte>, w: WriteResult)
    requires WriteOk(s, |value|, w) && w.Wrote? && value != []
    ensures !Intact(OnNewValue(s, value, true, w))
  {
    var u := s.(announced := s.announced + ActiveSet(s));
    PropertyKeepsFlag(u, value, false, w);
    assert s.active.value in OnNewValue(s, value, true, w).announced;
  }

  /** An fd that is closed while its owner has more to send. */
  lemma {:induction false} EarlyCloseBreaks(s: State)
    requires Unfinished(s) && FdOk(s, s.active.value, true)
    ensures !Intact(CloseActive(s))
  {
    var fd := s.active.value;
    var t := s.(closed := s.closed + [fd], active := None);
    PendingKept(t);
    assert !StreamOk(ProcessPending(t), fd);
  }

  lemma {:induction false} NewValueBreaks(s: State, value: seq<byte>, announces: bool, w: WriteResult)
    requires Invariant(s, true) && WriteOk(s, |value|, w) && s.incremental && Harms(s, NewValue(Some(value), announces, w))
    ensures !Intact(OnNewValue(s, value, announces, w))
  {
    if value != [] {
      if announces {
        AnnouncementBreaks(s, value, w);
      } else {
        OverwriteBreaks(s, value, w.count);
      }
    } else if s.reply.None? {
      assert FdOk(s, s.active.value, true);
      EarlyCloseBreaks(s);
    }
  }

  lemma {:induction false} WritableBreaks(s: State, w: WriteResult)
    requires Invariant(s, true) && s.reply.Some? && s.offset <= |s.reply.value| && WriteOk(s, Left(s), w) && ClosesEarly(s, w)
    ensures !Intact(OnWritable(s, w))
  {
    FullWriteKeeps(s, true);
    var t := Record(s, Left(s)).(reply := None, armed := false);
    assert FdOk(t, t.active.value, true);
    EarlyCloseBreaks(t);
  }

  lemma {:induction false} HarmBreaks(s: State, e: Event)
    requires Invariant(s, true) && Enabled(s, e) && Harms(s, e)
    ensures !Intact(Step(s, e))
  {
    match e
    case SelectionNotify(reply, w) =>
      OwnerEndsKeeps(s, true);
      FlagIrrelevant(OwnerEnds(s), false, true);
      OverwriteBreaks(OwnerEnds(s).(incremental := false), reply.bytes, w.count);
    case NewValue(v, announces, w) => NewValueBreaks(s, v.value, announces, w);
    case Writable(w) => WritableBreaks(s, w);
  }

  lemma {:induction false} UndisturbedIsIntact(es: seq<Event>)
    requires Legal(es) && Undisturbed(es)
    ensures Intact(Run(es))
  {
    RunKeeps(es);
    var s := Run(es);
    forall fd: nat
      ensures StreamOk(s, fd)
    {
      assert FdOk(s, fd, true);
    }
  }

  /** The state was intact all along. */
  ghost predicate AlwaysIntact(es: seq<Event>)
    requires Legal(es)
    decreases |es|
  {
    Intact(Run(es)) && (es != [] ==> AlwaysIntact(es[..|es| - 1]))
  }

  /**
   * In every run the streams are right, no announcement is written and the
   * assertions hold throughout, if and only if no event of the run does harm:
   * no value is taken while another one is in flight and no announcement while
   * the flag is set, other than by a write that fails, and no value of a
   * transfer that goes on is completed after the flag was cleared.
   */
  lemma {:induction false} IntegrityIff(es: seq<Event>)
    requires Legal(es)
    ensures AlwaysIntact(es) <==> Undisturbed(es)
    decreases |es|
  {
    if es == [] {
      UndisturbedIsIntact(es);
    } else {
      var front, e := es[..|es| - 1], es[|es| - 1];
      IntegrityIff(front);
      if Undisturbed(es) {
        UndisturbedIsIntact(es);
      } else if Undisturbed(front) {
        RunKeeps(front);
        HarmBreaks(Run(front), e);
      }
    }
  }

  // ----- the incremental flag of the previous transfer -----

  /**
   * Of the events that the flag is there for the last was an announcement: a
   * SelectionNotify with a reply, the other direction's transfer, or the
   * change of hands, which is none.
   */
  predicate LastWasIncr(es: seq<Event>)
    decreases |es|
  {
    if es == [] then false
    else
      var e := es[|es| - 1];
      if e.SelectionNotify? && !e.reply.NoReply? then e.reply.IncrType?
      else if e.OtherTransfer? then e.announced
      else !e.OwnerChanged? && LastWasIncr(es[..|es| - 1])
  }

  lemma {:induction false} NewValueKeepsFlag(s: State, value: seq<byte>, announces: bool, w: WriteResult)
    requires WriteOk(s, |value|, w)
    ensures OnNewValue(s, value, announces, w).incremental == s.incremental
  {
    if value != [] {
      var t := if announces && w.Wrote? then s.(announced := s.announced + ActiveSet(s)) else s;
      PropertyKeepsFlag(t, value, !announces, w);
    } else if !s.armed {
      var t := if announces then s else OwnerEnds(s);
      PendingKept(t.(closed := if t.active.Some? then t.closed + [t.active.value] else t.closed, active := None));
    }
  }

  /**
   * In every run the incremental flag says what the last of these events said,
   * for whichever fd that was: neither the end of a transfer nor the start of
   * the next one changes it.
   */
  lemma {:induction false} FlagIsLastNotify(es: seq<Event>)
    requires Legal(es)
    ensures Run(es).incremental == LastWasIncr(es)
    decreases |es|
  {
    if es != [] {
      var front, e := es[..|es| - 1], es[|es| - 1];
      FlagIsLastNotify(front);
      var s := Run(front);
      match e
      case SendRequested(_) =>
      case SelectionNotify(reply, w) =>
        if reply.Value? {
          PropertyKeepsFlag(OwnerEnds(s).(incremental := false), reply.bytes, true, w);
        }
      case NewValue(v, announces, w) =>
        if s.incremental && v.Some? {
          NewValueKeepsFlag(s, v.value, announces, w);
        }
      case Writable(w) => WritableKeepsAnnounced(s, w);
      case OwnerChanged =>
      case OtherTransfer(_) =>
    }
  }

  lemma {:induction false} RunSnoc(es: seq<Event>, e: Event)
    requires Legal(es) && Enabled(Run(es), e)
    ensures Legal(es + [e]) && Run(es + [e]) == Step(Run(es), e)
  {
    assert (es + [e])[..|es|] == es;
  }

  /** A new request when no send is active, with the flag still set: the fd is active and has no bytes. */
  lemma {:induction false} NextRequest(es: seq<Event>, fd: nat)
    requires Legal(es) && Run(es).incremental && Run(es).active.None? && fd !in Run(es).asked && !Run(es).aborted
    ensures var more := es + [SendRequested(Request(fd, true))];
            && Legal(more) && Run(more).active == Some(fd) && Run(more).incremental && !Run(more).aborted
            && Run(more).reply.None? && !Run(more).armed && Run(more).pending == []
            && Of(Run(more).written, fd) == [] && Of(Run(more).received, fd) == [] && fd !in Run(more).failed
  {
    RunKeeps(es);
    NotAskedNotWritten(es, fd);
    assert FdOk(Run(es), fd, Undisturbed(es));
    RunSnoc(es, SendRequested(Request(fd, true)));
  }

  /** Bytes are written only to an fd that has begun. */
  lemma {:induction false} NotAskedNotWritten(es: seq<Event>, fd: nat)
    requires Legal(es) && fd !in Run(es).asked
    ensures Of(Run(es).written, fd) == []
    decreases |es|
  {
    if es != [] {
      var front, e := es[..|es| - 1], es[|es| - 1];
      var s := Run(front);
      RunKeeps(front);
      assert FdOk(s, fd, Undisturbed(front));
      StepAsked(s, e, fd);
      NotAskedNotWritten(front, fd);
    }
  }

  lemma {:induction false} PendingAsked(s: State)
    ensures ProcessPending(s).asked == s.asked
    decreases |s.pending|
  {
    if s.pending != [] && !s.pending[0].atomOk {
      PendingAsked(Begin(s.(pending := s.pending[1..]), s.pending[0]));
    }
  }

  lemma {:induction false} CloseAsked(s: State)
    ensures CloseActive(s).asked == s.asked && CloseActive(s).written == s.written
  {
    var t := s.(closed := if s.active.Some? then s.closed + [s.active.value] else s.closed, active := None);
    PendingAsked(t);
    PendingKept(t);
  }

  lemma {:induction false} WritableAsked(s: State, w: WriteResult, fd: nat)
    requires s.reply.Some? && s.offset <= |s.reply.value| && WriteOk(s, Left(s), w)
    ensures OnWritable(s, w).asked == s.asked
    ensures s.active != Some(fd) ==> Of(OnWritable(s, w).written, fd) == Of(s.written, fd)
  {
    match w
    case WriteError => CloseAsked(Failed(s));
    case Wrote(n) => CloseAsked(Record(s, n).(reply := None, armed := false));
  }

  lemma {:induction false} PropertyAsked(s: State, value: seq<byte>, data: bool, w: WriteResult, fd: nat)
    requires WriteOk(s, |value|, w)
    ensures WriteProperty(s, value, data, w).asked == s.asked
    ensures s.active != Some(fd) ==> Of(WriteProperty(s, value, data, w).written, fd) == Of(s.written, fd)
  {
    WritableAsked(Taken(s, value, data), w, fd);
  }

  lemma {:induction false} NewValueAsked(s: State, value: seq<byte>, announces: bool, w: WriteResult, fd: nat)
    requires WriteOk(s, |value|, w)
    ensures OnNewValue(s, value, announces, w).asked == s.asked
    ensures s.active != Some(fd) ==> Of(OnNewValue(s, value, announces, w).written, fd) == Of(s.written, fd)
  {
    if value != [] {
      var t := if announces && w.Wrote? then s.(announced := s.announced + ActiveSet(s)) else s;
      PropertyAsked(t, value, !announces, w, fd);
    } else {
      CloseAsked(if announces then s else OwnerEnds(s));
    }
  }

  lemma {:induction false} StepAsked(s: State, e: Event, fd: nat)
    requires Enabled(s, e)
    ensures fd in s.asked ==> fd in Step(s, e).asked
    ensures s.active != Some(fd) ==> Of(Step(s, e).written, fd) == Of(s.written, fd)
  {
    match e
    case SendRequested(_) =>
    case SelectionNotify(reply, w) =>
      if reply.Value? {
        PropertyAsked(OwnerEnds(s).(incremental := false), reply.bytes, true, w, fd);
      }
    case NewValue(v, announces, w) =>
      if v.Some? {
        NewValueAsked(s, v.value, announces, w, fd);
      }
    case Writable(w) => WritableAsked(s, w, fd);
    case OwnerChanged =>
    case OtherTransfer(_) =>
  }

  /**
   * The flag is not cleared when the next request begins: after any run that
   * leaves it set with no send active, the value that announces the transfer
   * for the next fd is written to that fd, although no data has been received
   * for it.
   */
  lemma {:induction false} StaleIncrementalFlag(es: seq<Event>, fd: nat, announcement: seq<byte>)
    requires Legal(es) && Run(es).incremental && Run(es).active.None? && fd !in Run(es).asked && !Run(es).aborted
    requires announcement != []
    ensures var more := es + [SendRequested(Request(fd, true))] + [NewValue(Some(announcement), true, Wrote(|announcement|))];
            && Legal(more) && Run(more).active == Some(fd)
            && Of(Run(more).written, fd) == announcement && Of(Run(more).received, fd) == []
  {
    var e, n := SendRequested(Request(fd, true)), NewValue(Some(announcement), true, Wrote(|announcement|));
    NextRequest(es, fd);
    RunSnoc(es + [e], n);
    assert announcement[0..|announcement|] == announcement && [] + announcement == announcement;
  }

  /** A request, and a one-shot value for it of which k bytes are written when its property changes. */
  function WithValue(es: seq<Event>, fd: nat, v: seq<byte>, k: nat): seq<Event> {
    es + [SendRequested(Request(fd, true))] + [NewValue(Some(v), false, Wrote(k))]
  }

  predicate HalfWritten(s: State, fd: nat, v: seq<byte>, k: nat)
    requires k < |v|
  {
    && s.active == Some(fd) && s.reply == Some(v) && s.armed && !s.aborted && s.pending == []
    && Of(s.written, fd) == v[..k] && fd !in s.failed
  }

  lemma {:induction false} ValueInFlight(es: seq<Event>, fd: nat, v: seq<byte>, k: nat)
    requires Legal(es) && Run(es).incremental && Run(es).active.None? && fd !in Run(es).asked && !Run(es).aborted
    requires k < |v|
    ensures Legal(WithValue(es, fd, v, k)) && HalfWritten(Run(WithValue(es, fd, v, k)), fd, v, k)
  {
    NextRequest(es, fd);
    RunSnoc(es + [SendRequested(Request(fd, true))], NewValue(Some(v), false, Wrote(k)));
    assert [] + v[0..k] == v[..k];
  }

  /** The value is written twice, or an assertion fails, or the fd is closed with a part of it. */
  predicate Garbled(t: State, fd: nat, v: seq<byte>, k: nat, w: WriteResult)
    requires k < |v|
  {
    && (w == Wrote(|v|) ==> Of(t.written, fd) == v[..k] + v && fd in t.closed && fd !in t.failed)
    && (w.Wrote? && w.count < |v| ==> t.aborted)
    && (w.WriteError? ==> Of(t.written, fd) == v[..k] && fd in t.closed)
  }

  lemma {:induction false} SecondValue(s: State, fd: nat, v: seq<byte>, k: nat, w: WriteResult)
    requires k < |v| && HalfWritten(s, fd, v, k) && Enabled(s, SelectionNotify(Value(v), w))
    ensures Garbled(Step(s, SelectionNotify(Value(v), w)), fd, v, k, w)
  {
    assert v[0..|v|] == v;
  }

  /**
   * An owner that keeps to the protocol is enough: after a run that leaves the
   * flag set, it writes its one-shot value, part of which fits the pipe, and
   * then sends SelectionNotify. The value is written again from its start
   * behind that part, and the fd is closed as complete; if it does not all fit
   * the pipe an assertion fails; and if nothing fits, the fd is closed with
   * the part it has.
   */
  lemma {:induction false} ValueWrittenTwice(es: seq<Event>, fd: nat, v: seq<byte>, k: nat, w: WriteResult)
    requires Legal(es) && Run(es).incremental && Run(es).active.None? && fd !in Run(es).asked && !Run(es).aborted
    requires k < |v| && (w.Wrote? ==> w.count <= |v|)
    ensures var more := WithValue(es, fd, v, k) + [SelectionNotify(Value(v), w)];
            Legal(more) && Garbled(Run(more), fd, v, k, w)
  {
    ValueInFlight(es, fd, v, k);
    var before := WithValue(es, fd, v, k);
    RunSnoc(before, SelectionNotify(Value(v), w));
    SecondValue(Run(before), fd, v, k, w);
  }

  /** One request, answered by the announcement of an incremental transfer. */
  function Opening(fd: nat): seq<Event> {
    [] + [SendRequested(Request(fd, true))] + [SelectionNotify(IncrType, WriteError)]
  }

  lemma {:induction false} AfterOpening(fd: nat)
    ensures Legal(Opening(fd))
    ensures Run(Opening(fd)) == Idle.(asked := [fd], active := Some(fd), begun := [fd], incremental := true)
  {
    var e0, e1 := SendRequested(Request(fd, true)), SelectionNotify(IncrType, WriteError);
    var s1 := Idle.(asked := [fd], active := Some(fd), begun := [fd]);
    assert Step(Idle, e0) == s1 by {
      assert [] + [fd] == [fd];
    }
    RunSnoc([], e0);
    RunSnoc([] + [e0], e1);
  }

  /** Such a run exists: one incremental transfer, ended by an empty value. */
  lemma {:induction false} IncrementalLeavesFlag(fd: nat)
    ensures var es := Opening(fd) + [NewValue(Some([]), false, WriteError)];
            Legal(es) && Run(es).incremental && Run(es).active.None? && !Run(es).aborted && Run(es).asked == [fd]
  {
    AfterOpening(fd);
    RunSnoc(Opening(fd), NewValue(Some([]), false, WriteError));
    var s := OwnerEnds(Run(Opening(fd)));
    assert CloseActive(s) == s.(closed := [fd], active := None) by {
      assert [] + [fd] == [fd];
    }
  }

  // ----- another owner -----

  /** An incremental transfer of which k bytes of the first value are written. */
  lemma {:induction false} TransferInFlight(fd: nat, v: seq<byte>, k: nat)
    requires k < |v|
    ensures var es := Opening(fd) + [NewValue(Some(v), false, Wrote(k))];
            && Legal(es) && Run(es).incremental && Run(es).active == Some(fd) && Run(es).reply == Some(v)
            && Run(es).offset == k && fd !in Run(es).ended && !Run(es).aborted
  {
    AfterOpening(fd);
    RunSnoc(Opening(fd), NewValue(Some(v), false, Wrote(k)));
  }

  /**
   * Another client takes the clipboard while a value of an incremental
   * transfer is in flight: when the rest of that value is written the fd is
   * closed as complete, although its owner had not ended the transfer.
   */
  lemma {:induction false} OwnerChangeCutsShort(es: seq<Event>, fd: nat)
    requires Legal(es) && Run(es).active == Some(fd) && Run(es).reply.Some? && fd !in Run(es).ended && !Run(es).aborted
    ensures Run(es).offset < |Run(es).reply.value|
    ensures var more := es + [OwnerChanged] + [Writable(Wrote(Left(Run(es))))];
            Legal(more) && fd in Run(more).closed && fd !in Run(more).failed && fd !in Run(more).ended
  {
    RunKeeps(es);
    var s := Run(es);
    assert FdOk(s, fd, Undisturbed(es));
    RunSnoc(es, OwnerChanged);
    RunSnoc(es + [OwnerChanged], Writable(Wrote(Left(s))));
    var t := Record(s.(incremental := false), Left(s)).(reply := None, armed := false);
    var u := t.(closed := t.closed + [fd], active := None);
    PendingKept(u);
    PendingCloses(u, fd);
  }

  lemma {:induction false} PendingCloses(s: State, fd: nat)
    requires fd in s.closed
    ensures fd in ProcessPending(s).closed
    decreases |s.pending|
  {
    if s.pending != [] && !s.pending[0].atomOk {
      PendingCloses(Begin(s.(pending := s.pending[1..]), s.pending[0]), fd);
    }
  }

  /** A send is active, no value is in flight and the flag is clear. */
  predicate Stalled(s: State, fd: nat) {
    s.active == Some(fd) && s.reply.None? && !s.armed && !s.incremental
  }

  /** No conversion is answered, and no announcement in the other direction sets the flag. */
  predicate FlagStaysClear(ms: seq<Event>) {
    forall i :: 0 <= i < |ms| ==> !ms[i].SelectionNotify? && ms[i] != OtherTransfer(true)
  }

  lemma {:induction false} StaysStalled(es: seq<Event>, ms: seq<Event>, fd: nat)
    requires Legal(es) && Legal(es + ms) && Stalled(Run(es), fd)
    requires FlagStaysClear(ms)
    ensures Stalled(Run(es + ms), fd) && Run(es + ms).written == Run(es).written && Run(es + ms).closed == Run(es).closed
    decreases |ms|
  {
    if ms == [] {
      assert es + ms == es;
    } else {
      assert (es + ms)[..|es + ms| - 1] == es + ms[..|ms| - 1];
      StaysStalled(es, ms[..|ms| - 1], fd);
    }
  }

  /**
   * Another client takes the clipboard between two values of a transfer. Each
   * conversion is answered by one SelectionNotify, and that of the active fd
   * has been: so nothing is written to this fd or to any other, and none is
   * closed, however many requests queue up and values arrive.
   */
  lemma {:induction false} OwnerChangeStalls(es: seq<Event>, fd: nat, ms: seq<Event>)
    requires Legal(es) && Run(es).active == Some(fd) && Run(es).reply.None?
    requires Legal(es + [OwnerChanged] + ms) && FlagStaysClear(ms)
    ensures var t := Run(es + [OwnerChanged] + ms);
            t.active == Some(fd) && t.written == Run(es).written && t.closed == Run(es).closed
  {
    RunKeeps(es);
    LegalPrefix(es + [OwnerChanged], ms);
    assert (es + [OwnerChanged])[..|es|] == es;
    StaysStalled(es + [OwnerChanged], ms, fd);
  }

  lemma {:induction false} LegalPrefix(es: seq<Event>, ms: seq<Event>)
    requires Legal(es + ms)
    ensures Legal(es)
    decreases |ms|
  {
    if ms == [] {
      assert es + ms == es;
    } else {
      assert (es + ms)[..|es + ms| - 1] == es + ms[..|ms| - 1];
      LegalPrefix(es, ms[..|ms| - 1]);
    }
  }

  // ----- the handlers -----

  /** The fields of sl_context used by sends, and a record of what reached each fd. */
  class Context {
    var active: Option<nat>
    var pending: seq<Request>
    var incremental: bool
    var reply: Option<seq<byte>>
    var offset: nat
    var armed: bool
    var asked: seq<nat>
    var begun: seq<nat>
    var closed: seq<nat>
    var failed: set<nat>
    var received: map<nat, seq<byte>>
    var written: map<nat, seq<byte>>
    var ended: set<nat>
    var announced: set<nat>
    var aborted: bool

    ghost function View(): State
      reads this
    {
      State(active, pending, incremental, reply, offset, armed, asked, begun, closed, failed,
            received, written, ended, announced, aborted)
    }

    constructor ()
      ensures View() == Idle
    {
      active, pending, incremental := None, [], false;
      reply, offset, armed := None, 0, false;
      asked, begun, closed, failed := [], [], [], {};
      received, written := map[], map[];
      ended, announced, aborted := {}, {}, false;
    }

    /** sl_begin_data_source_send. */
    method BeginSend(r: Request) returns (ok: bool)
      modifies this`active, this`begun, this`closed
      ensures View() == Begin(old(View()), r) && ok == r.atomOk
    {
      if !r.atomOk {
        closed := closed + [r.fd];
        return false;
      }
      begun := begun + [r.fd];
      active := Some(r.fd);
      return true;
    }

    /** sl_process_data_source_send_pending_list. */
    method ProcessPendingList()
      modifies this`active, this`begun, this`closed, this`pending
      ensures View() == ProcessPending(old(View()))
    {
      while pending != []
        invariant ProcessPending(View()) == ProcessPending(old(View()))
        decreases |pending|
      {
        var r := pending[0];
        pending := pending[1..];
        var ok := BeginSend(r);
        if ok {
          break;
        }
      }
    }

    /** close(fd), and on to the next request. */
    method CloseActiveFd()
      modifies this`active, this`begun, this`closed, this`pending
      ensures View() == CloseActive(old(View()))
    {
      if active.Some? {
        closed := closed + [active.value];
      }
      active := None;
      ProcessPendingList();
    }

    method RecordWrite(n: nat)
      requires reply.Some? && active.Some? && offset + n <= |reply.value|
      modifies this`written
      ensures View() == Record(old(View()), n)
    {
      var fd := active.value;
      written := written[fd := Of(written, fd) + reply.value[offset..offset + n]];
    }

    method FailActive()
      modifies this`failed
      ensures View() == old(View()).(failed := if active.Some? then old(failed) + {active.value} else old(failed))
    {
      if active.Some? {
        failed := failed + {active.value};
      }
    }

    /** The value is done with; the fd stays open or the next request takes its place. */
    method ReplyDone(open: bool)
      modifies this`reply, this`armed, this`active, this`begun, this`closed, this`pending
      ensures var t := old(View()).(reply := None, armed := false); View() == if open then t else CloseActive(t)
    {
      reply, armed := None, false;
      if !open {
        CloseActiveFd();
      }
    }

    /** sl_handle_selection_fd_writable. */
    method HandleWritable(w: WriteResult)
      requires reply.Some? && offset <= |reply.value| && WriteOk(View(), Left(View()), w)
      modifies this
      ensures View() == OnWritable(old(View()), w)
    {
      var left := |reply.value| - offset;
      var open := true;
      if w.WriteError? {
        FailActive();
        open := false;
      } else {
        RecordWrite(w.count);
        if w.count == left {
          open := incremental;
        } else {
          offset := offset + w.count;
          return;
        }
      }
      ReplyDone(open);
    }

    method TakeValue(value: seq<byte>, data: bool)
      modifies this`received, this`reply, this`offset
      ensures View() == Taken(old(View()), value, data)
    {
      if data && active.Some? {
        received := received[active.value := Of(received, active.value) + value];
      }
      offset := 0;
      reply := Some(value);
    }

    /** sl_write_selection_property, with its assertion. */
    method WriteSelectionProperty(value: seq<byte>, data: bool, w: WriteResult)
      requires WriteOk(View(), |value|, w) && !aborted
      modifies this
      ensures View() == WriteProperty(old(View()), value, data, w)
    {
      TakeValue(value, data);
      HandleWritable(w);
      if reply.Some? {
        aborted := armed;
        armed := true;
      }
    }

    method RecordEnd()
      modifies this`ended
      ensures View() == OwnerEnds(old(View()))
    {
      if active.Some? {
        ended := ended + {active.value};
      }
    }

    /** sl_internal_data_source_send. */
    method DataSourceSend(r: Request)
      requires Enabled(View(), SendRequested(r))
      modifies this
      ensures View() == Step(old(View()), SendRequested(r))
    {
      asked := asked + [r.fd];
      if active.None? {
        var _ := BeginSend(r);
      } else {
        pending := [r] + pending;
      }
    }

    /** sl_get_selection_data. */
    method GetSelectionData(r: Reply, w: WriteResult)
      requires Enabled(View(), SelectionNotify(r, w))
      modifies this
      ensures View() == Step(old(View()), SelectionNotify(r, w))
    {
      match r {
        case NoReply =>
        case IncrType => incremental := true;
        case Value(bytes) =>
          RecordEnd();
          incremental := false;
          WriteSelectionProperty(bytes, true, w);
      }
    }

    /** sl_handle_property_notify for the selection property. */
    method PropertyNewValue(v: Option<seq<byte>>, announces: bool, w: WriteResult)
      requires Enabled(View(), NewValue(v, announces, w))
      modifies this
      ensures View() == Step(old(View()), NewValue(v, announces, w))
    {
      if incremental && v.Some? {
        if |v.value| > 0 {
          if announces && w.Wrote? && active.Some? {
            announced := announced + {active.value};
          }
          WriteSelectionProperty(v.value, !announces, w);
        } else if armed {
          aborted := true;
        } else {
          if !announces {
            RecordEnd();
          }
          CloseActiveFd();
        }
      }
    }

    /** sl_handle_xfixes_selection_notify, when the new owner is another X client. */
    method XfixesSelectionNotify()
      requires Enabled(View(), OwnerChanged)
      modifies this`incremental
      ensures View() == Step(old(View()), OwnerChanged)
    {
      incremental := false;
    }

    /** sl_handle_selection_request clears the shared flag, and a large transfer to an X client sets it. */
    method SelectionRequested(announced: bool)
      requires Enabled(View(), OtherTransfer(announced))
      modifies this`incremental
      ensures View() == Step(old(View()), OtherTransfer(announced))
    {
      incremental := announced;
    }
  }
}

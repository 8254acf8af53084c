/**
 * Clipboard transfer from a Wayland client to an X11 requestor: one-shot or
 * incremental (ICCCM section 2.7.2), as the event handlers of sommelier.cc do it.
 */
module SelectionSend {
  import opened Machine

  /** sl_incr_chunk_size: 64 KiB. */
  const CHUNK: nat := 65536

  /** A property written on the requestor's window. */
  datatype Property = Incr | Data(bytes: seq<byte>)

  /** What the X server sees: a property written, or one deleted by the requestor. */
  datatype Item = Wrote(property: Property) | Acked

  /** SelectionNotify, with the property or with None. */
  datatype Notice = Accepted | Refused

  datatype ReadResult = Failed | Got(bytes: seq<byte>)

  datatype Event = Readable(result: ReadResult) | Deleted

  /**
   * The selection fields of sl_context. `armed` is selection_event_source,
   * `waiting` is selection_request.requestor != XCB_NONE.
   */
  datatype State = State(
    fdOpen: bool, armed: bool, ackPending: bool, incremental: bool, waiting: bool,
    buffer: seq<byte>, log: seq<Item>, notices: seq<Notice>)

  /** After sl_send_data opened the pipe and added the read source. */
  const Start := State(true, true, false, false, true, [], [], [])

  predicate Enabled(s: State, e: Event) {
    e.Readable? ==> s.armed && s.fdOpen && (e.result.Got? ==> |s.buffer| + |e.result.bytes| <= CHUNK)
  }

  /** sl_send_selection_data; its assertion is the precondition. */
  function Send(s: State): State
    requires !s.ackPending
  {
    s.(log := s.log + [Wrote(Data(s.buffer))], ackPending := true, buffer := [])
  }

  function SendIfAcked(s: State): State {
    if s.ackPending then s else Send(s)
  }

  /** A full buffer: announce an incremental transfer, or send it if the last property was taken. */
  function OnFull(s: State): State {
    if !s.incremental then
      s.(incremental := true, log := s.log + [Wrote(Incr)], ackPending := true, notices := s.notices + [Accepted])
    else SendIfAcked(s)
  }

  /** End of file: send what is buffered; a one-shot transfer is now complete. */
  function OnEof(s: State): State {
    var t := SendIfAcked(s);
    if t.incremental then t else t.(notices := t.notices + [Accepted], waiting := false)
  }

  /** sl_handle_selection_fd_readable. */
  function OnReadable(s: State, r: ReadResult): State {
    match r
    case Failed => s.(notices := s.notices + [Refused], fdOpen := false, armed := false)
    case Got(bytes) =>
      var t := s.(buffer := s.buffer + bytes);
      if |t.buffer| >= CHUNK then OnFull(t).(armed := false)
      else if bytes == [] then OnEof(t).(fdOpen := false, armed := false)
      else t
  }

  /** sl_handle_property_notify for the deletion of the transfer property. */
  function OnDeleted(s: State): State {
    if !(s.waiting && s.incremental) then s
    else
      var t := s.(ackPending := false, log := s.log + [Acked]);
      if s.fdOpen then (if s.buffer != [] then Send(t) else t).(armed := true)
      else if s.buffer != [] then Send(t)
      else Send(t).(waiting := false)
  }

  function Step(s: State, e: Event): State {
    match e
    case Readable(r) => OnReadable(s, r)
    case Deleted => OnDeleted(s)
  }

  // ----- what a run reads and writes -----

  function BytesOf(e: Event): seq<byte> {
    if e.Readable? && e.result.Got? then e.result.bytes else []
  }

  /** All bytes taken from the source. */
  function ReadBytes(es: seq<Event>): seq<byte>
    decreases |es|
  {
    if es == [] then [] else ReadBytes(es[..|es| - 1]) + BytesOf(es[|es| - 1])
  }

  /** All bytes in the data properties, in order. */
  function Written(log: seq<Item>): seq<byte>
    decreases |log|
  {
    if log == [] then []
    else Written(log[..|log| - 1]) + ItemBytes(log[|log| - 1])
  }

  function ItemBytes(i: Item): seq<byte> {
    if i.Wrote? && i.property.Data? then i.property.bytes else []
  }

  predicate IsZero(i: Item) {
    i == Wrote(Data([]))
  }

  function ZeroLengths(log: seq<Item>): nat
    decreases |log|
  {
    if log == [] then 0 else ZeroLengths(log[..|log| - 1]) + (if IsZero(log[|log| - 1]) then 1 else 0)
  }

  /** Between two properties the requestor deleted the first one. */
  predicate AckedBetween(log: seq<Item>) {
    forall i :: 0 <= i < |log| - 1 ==> !(log[i].Wrote? && log[i + 1].Wrote?)
  }

  predicate SmallChunks(log: seq<Item>) {
    forall i :: 0 <= i < |log| ==> |ItemBytes(log[i])| <= CHUNK
  }

  /** After a zero-length property no data follows: it marks the end for the requestor. */
  predicate NoDataAfterZero(log: seq<Item>) {
    forall i, j :: 0 <= i < j < |log| && IsZero(log[i]) ==> ItemBytes(log[j]) == []
  }

  /** INCR comes first, once, and only in an incremental transfer. */
  predicate IncrFirst(log: seq<Item>, incremental: bool) {
    && (incremental ==> log != [] && log[0] == Wrote(Incr))
    && (forall i :: 0 <= i < |log| && log[i] == Wrote(Incr) ==> incremental && i == 0)
  }

  // ----- the invariant -----

  /** Flow of bytes and acknowledgements. */
  predicate Flow(s: State, read: seq<byte>) {
    && Written(s.log) + s.buffer == read
    && |s.buffer| <= CHUNK
    && SmallChunks(s.log)
    && AckedBetween(s.log)
    && (s.ackPending <==> s.log != [] && s.log[|s.log| - 1].Wrote?)
    && (s.armed ==> s.fdOpen && |s.buffer| < CHUNK)
    && (s.fdOpen ==> s.waiting && (s.armed || (s.ackPending && s.incremental)))
  }

  /** Shape of the log by phase. `eof` tells whether the source was read to its end. */
  predicate Phases(s: State, read: seq<byte>, eof: bool) {
    && IncrFirst(s.log, s.incremental)
    && NoDataAfterZero(s.log)
    && (s.incremental <==> |read| >= CHUNK)
    && (!s.incremental && s.waiting ==> s.log == [])
    && (!s.incremental && !s.waiting ==> s.log == [Wrote(Data(read))] && s.buffer == [] && eof)
    && (s.fdOpen ==> !eof)
    && (!s.incremental && eof ==> !s.waiting)
    && (s.incremental && s.waiting ==> ZeroLengths(s.log) <= (if eof then 1 else 0))
    && (s.incremental && s.waiting && ZeroLengths(s.log) == 1 ==> s.buffer == [])
    && (s.incremental && s.waiting && eof ==> s.ackPending)
    && (s.incremental && !s.waiting ==> !s.fdOpen && s.buffer == [] && 1 <= ZeroLengths(s.log) <= 2)
  }

  predicate Invariant(s: State, read: seq<byte>, eof: bool) {
    Flow(s, read) && Phases(s, read, eof)
  }

  /** The source reported end of file with this event. */
  predicate IsEof(s: State, e: Event) {
    e == Readable(Got([])) && |s.buffer| < CHUNK
  }

  // ----- appending to the log -----

  lemma {:induction false} LogSnoc(log: seq<Item>, i: Item)
    ensures Written(log + [i]) == Written(log) + ItemBytes(i)
    ensures ZeroLengths(log + [i]) == ZeroLengths(log) + (if IsZero(i) then 1 else 0)
  {
    assert (log + [i])[..|log|] == log;
  }

  lemma {:induction false} NoZeros(log: seq<Item>, k: nat)
    requires ZeroLengths(log) == 0 && k < |log|
    ensures !IsZero(log[k])
    decreases |log|
  {
    if k < |log| - 1 {
      NoZeros(log[..|log| - 1], k);
    }
  }

  lemma {:induction false} AppendAcked(log: seq<Item>, i: Item)
    requires SmallChunks(log) && AckedBetween(log) && |ItemBytes(i)| <= CHUNK
    requires i.Wrote? && log != [] ==> !log[|log| - 1].Wrote?
    ensures SmallChunks(log + [i]) && AckedBetween(log + [i])
  {
  }

  lemma {:induction false} AppendShape(log: seq<Item>, i: Item, incremental: bool)
    requires NoDataAfterZero(log) && IncrFirst(log, incremental)
    requires ItemBytes(i) != [] ==> ZeroLengths(log) == 0
    requires i != Wrote(Incr)
    ensures NoDataAfterZero(log + [i]) && IncrFirst(log + [i], incremental)
  {
    var all := log + [i];
    forall k, j | 0 <= k < j < |all| && IsZero(all[k])
      ensures ItemBytes(all[j]) == []
    {
      if j == |log| && ItemBytes(i) != [] {
        NoZeros(log, k);
      }
    }
  }

  /** What one more item does to the log predicates. */
  lemma {:induction false} AppendItem(log: seq<Item>, i: Item, incremental: bool)
    requires SmallChunks(log) && AckedBetween(log) && NoDataAfterZero(log) && IncrFirst(log, incremental)
    requires |ItemBytes(i)| <= CHUNK
    requires i.Wrote? && log != [] ==> !log[|log| - 1].Wrote?
    requires ItemBytes(i) != [] ==> ZeroLengths(log) == 0
    requires i != Wrote(Incr)
    ensures SmallChunks(log + [i]) && AckedBetween(log + [i]) && NoDataAfterZero(log + [i])
    ensures IncrFirst(log + [i], incremental)
    ensures Written(log + [i]) == Written(log) + ItemBytes(i)
    ensures ZeroLengths(log + [i]) == ZeroLengths(log) + (if IsZero(i) then 1 else 0)
  {
    AppendAcked(log, i);
    AppendShape(log, i, incremental);
    LogSnoc(log, i);
  }

  /** The first full buffer turns the transfer incremental. */
  lemma {:induction false} AnnounceKeeps(s: State, read: seq<byte>, bytes: seq<byte>)
    requires Invariant(s, read, false) && Enabled(s, Readable(Got(bytes)))
    requires |s.buffer| + |bytes| >= CHUNK && !s.incremental
    ensures Invariant(OnReadable(s, Got(bytes)), read + bytes, false)
  {
    LogSnoc(s.log, Wrote(Incr));
    assert s.log + [Wrote(Incr)] == [Wrote(Incr)];
  }

  /** The state after a full buffer was sent. */
  function SentFull(s: State, bytes: seq<byte>): State {
    s.(log := s.log + [Wrote(Data(s.buffer + bytes))], ackPending := true, buffer := [], armed := false)
  }

  lemma {:induction false} SentFullFlow(s: State, read: seq<byte>, bytes: seq<byte>)
    requires Flow(s, read) && s.incremental && !s.ackPending && |s.buffer| + |bytes| <= CHUNK
    ensures Flow(SentFull(s, bytes), read + bytes)
  {
    var item := Wrote(Data(s.buffer + bytes));
    AppendAcked(s.log, item);
    LogSnoc(s.log, item);
    assert Written(s.log) + s.buffer + bytes == Written(s.log) + (s.buffer + bytes) + [];
  }

  lemma {:induction false} SentFullPhases(s: State, read: seq<byte>, bytes: seq<byte>)
    requires Phases(s, read, false) && s.incremental && s.waiting && s.buffer + bytes != []
    ensures Phases(SentFull(s, bytes), read + bytes, false)
  {
    var item := Wrote(Data(s.buffer + bytes));
    AppendShape(s.log, item, true);
    LogSnoc(s.log, item);
  }

  /** A full buffer is sent when nothing is unacknowledged. */
  lemma {:induction false} FullSends(s: State, read: seq<byte>, bytes: seq<byte>)
    requires Invariant(s, read, false) && Enabled(s, Readable(Got(bytes)))
    requires |s.buffer| + |bytes| >= CHUNK && s.incremental && !s.ackPending
    ensures Invariant(OnReadable(s, Got(bytes)), read + bytes, false)
  {
    assert OnReadable(s, Got(bytes)) == SentFull(s, bytes);
    SentFullFlow(s, read, bytes);
    SentFullPhases(s, read, bytes);
  }

  /** Otherwise it waits for the deletion of the last property. */
  lemma {:induction false} FullWaits(s: State, read: seq<byte>, bytes: seq<byte>)
    requires Invariant(s, read, false) && Enabled(s, Readable(Got(bytes)))
    requires |s.buffer| + |bytes| >= CHUNK && s.incremental && s.ackPending
    ensures Invariant(OnReadable(s, Got(bytes)), read + bytes, false)
  {
    assert Written(s.log) + s.buffer + bytes == Written(s.log) + (s.buffer + bytes);
    assert OnReadable(s, Got(bytes)) == s.(buffer := s.buffer + bytes, armed := false);
  }

  lemma {:induction false} FullKeeps(s: State, read: seq<byte>, bytes: seq<byte>)
    requires Invariant(s, read, false) && Enabled(s, Readable(Got(bytes)))
    requires |s.buffer| + |bytes| >= CHUNK && s.incremental
    ensures Invariant(OnReadable(s, Got(bytes)), read + bytes, false)
  {
    if s.ackPending { FullWaits(s, read, bytes); } else { FullSends(s, read, bytes); }
  }

  lemma {:induction false} EofKeeps(s: State, read: seq<byte>)
    requires Invariant(s, read, false) && Enabled(s, Readable(Got([]))) && |s.buffer| < CHUNK
    ensures Invariant(OnReadable(s, Got([])), read, true)
  {
    assert s.buffer + [] == s.buffer;
    if !s.ackPending {
      AppendItem(s.log, Wrote(Data(s.buffer)), s.incremental);
      assert Written(s.log) + s.buffer + [] == Written(s.log) + s.buffer;
      if !s.incremental {
        assert s.log + [Wrote(Data(s.buffer))] == [Wrote(Data(read))] by {
          assert [] + s.buffer == s.buffer;
        }
      }
    }
  }

  /** A read that neither fills the buffer nor ends the source is buffered. */
  lemma {:induction false} BufferKeeps(s: State, read: seq<byte>, bytes: seq<byte>)
    requires Invariant(s, read, false) && s.armed && |s.buffer| + |bytes| < CHUNK
    requires s.incremental || |read| + |bytes| < CHUNK
    ensures Invariant(s.(buffer := s.buffer + bytes), read + bytes, false)
  {
    assert Written(s.log) + s.buffer + bytes == Written(s.log) + (s.buffer + bytes);
  }

  lemma {:induction false} ShortSoFar(s: State, read: seq<byte>)
    requires Invariant(s, read, false) && s.armed && !s.incremental
    ensures read == s.buffer
  {
    assert Written(s.log) == [] && [] + s.buffer == s.buffer;
  }

  lemma {:induction false} ReadableKeeps(s: State, read: seq<byte>, r: ReadResult)
    requires Invariant(s, read, false) && Enabled(s, Readable(r))
    ensures Invariant(OnReadable(s, r), read + BytesOf(Readable(r)), IsEof(s, Readable(r)))
  {
    if r.Failed? {
      assert read + [] == read;
    } else if |s.buffer| + |r.bytes| >= CHUNK {
      if s.incremental { FullKeeps(s, read, r.bytes); } else { AnnounceKeeps(s, read, r.bytes); }
    } else if r.bytes == [] {
      assert read + [] == read;
      EofKeeps(s, read);
    } else {
      if !s.incremental { ShortSoFar(s, read); }
      BufferKeeps(s, read, r.bytes);
    }
  }

  lemma {:induction false} DeletedKeeps(s: State, read: seq<byte>, eof: bool)
    requires Invariant(s, read, eof)
    ensures Invariant(OnDeleted(s), read, eof)
  {
    if s.waiting && s.incremental {
      AppendItem(s.log, Acked, true);
      var log := s.log + [Acked];
      if s.buffer != [] || !s.fdOpen {
        AppendItem(log, Wrote(Data(s.buffer)), true);
      }
      assert Written(s.log) + [] == Written(s.log);
      assert Written(s.log) + s.buffer + [] == Written(s.log) + s.buffer;
    }
  }

  // ----- whole runs -----

  datatype Trace = Trace(state: State, eof: bool)

  predicate Legal(es: seq<Event>)
    decreases |es|, 0
  {
    es != [] ==> Legal(es[..|es| - 1]) && Enabled(Run(es[..|es| - 1]).state, es[|es| - 1])
  }

  function Run(es: seq<Event>): Trace
    requires Legal(es)
    decreases |es|, 1
  {
    if es == [] then Trace(Start, false)
    else
      var t := Run(es[..|es| - 1]);
      var e := es[|es| - 1];
      Trace(Step(t.state, e), t.eof || IsEof(t.state, e))
  }

  lemma {:induction false} RunKeeps(es: seq<Event>)
    requires Legal(es)
    ensures Invariant(Run(es).state, ReadBytes(es), Run(es).eof)
    decreases |es|
  {
    if es != [] {
      var front, e := es[..|es| - 1], es[|es| - 1];
      RunKeeps(front);
      var t := Run(front);
      match e
      case Readable(r) => ReadableKeeps(t.state, ReadBytes(front), r);
      case Deleted =>
        DeletedKeeps(t.state, ReadBytes(front), t.eof);
        assert ReadBytes(front) + [] == ReadBytes(front);
    }
  }

  // ----- notifications -----

  /** One acceptance, with the announcement or at the end of a one-shot transfer, and a refusal after a read error. */
  predicate Notified(s: State, eof: bool) {
    s.notices == (if s.incremental || !s.waiting then [Accepted] else [])
               + (if !s.fdOpen && !eof then [Refused] else [])
  }

  lemma {:induction false} StepNotified(s: State, read: seq<byte>, eof: bool, e: Event)
    requires Invariant(s, read, eof) && Enabled(s, e) && Notified(s, eof)
    ensures Notified(Step(s, e), eof || IsEof(s, e))
  {
    assert [] + [Accepted] == [Accepted] && [Accepted] + [] == [Accepted];
    assert [Accepted] + [] + [Refused] == [Accepted] + [Refused] && [] + [] + [Refused] == [] + [Refused];
  }

  /**
   * In every run the requestor is notified once that the transfer is accepted:
   * with the INCR announcement, or with the complete data; a read error is
   * reported as a refusal.
   */
  lemma {:induction false} NotifiedOnce(es: seq<Event>)
    requires Legal(es)
    ensures Notified(Run(es).state, Run(es).eof)
    decreases |es|
  {
    if es != [] {
      var front := es[..|es| - 1];
      NotifiedOnce(front);
      RunKeeps(front);
      StepNotified(Run(front).state, ReadBytes(front), Run(front).eof, es[|es| - 1]);
    }
  }

  /** In every run the source is closed by its end or by a read error, and by nothing else. */
  lemma {:induction false} ClosedIff(es: seq<Event>)
    requires Legal(es)
    ensures Run(es).state.fdOpen <==> !Run(es).eof && Readable(Failed) !in es
    decreases |es|
  {
    if es != [] {
      var front, e := es[..|es| - 1], es[|es| - 1];
      ClosedIff(front);
      assert forall x :: x in es <==> x in front || x == e;
    }
  }

  /** From the events: how many deletions of the transfer's properties the requestor made. */
  function Deletions(es: seq<Event>): nat
    requires Legal(es)
    decreases |es|
  {
    if es == [] then 0
    else
      var s, e := Run(es[..|es| - 1]).state, es[|es| - 1];
      Deletions(es[..|es| - 1]) + (if e.Deleted? && s.waiting && s.incremental then 1 else 0)
  }

  function Acks(log: seq<Item>): nat {
    if log == [] then 0 else Acks(log[..|log| - 1]) + (if log[|log| - 1].Acked? then 1 else 0)
  }

  lemma {:induction false} AcksSnoc(log: seq<Item>, i: Item)
    ensures Acks(log + [i]) == Acks(log) + (if i.Acked? then 1 else 0)
  {
    assert (log + [i])[..|log|] == log;
  }

  lemma {:induction false} StepAcks(s: State, e: Event)
    ensures Acks(Step(s, e).log) == Acks(s.log) + (if e.Deleted? && s.waiting && s.incremental then 1 else 0)
  {
    match e
    case Readable(r) =>
      if r.Got? {
        AcksSnoc(s.log, Wrote(Incr));
        AcksSnoc(s.log, Wrote(Data(s.buffer + r.bytes)));
      }
    case Deleted =>
      AcksSnoc(s.log, Acked);
      AcksSnoc(s.log + [Acked], Wrote(Data(s.buffer)));
  }

  /** In every run each of them is taken for an acknowledgement, and nothing else is. */
  lemma {:induction false} AcksInEveryRun(es: seq<Event>)
    requires Legal(es)
    ensures Acks(Run(es).state.log) == Deletions(es)
    decreases |es|
  {
    if es != [] {
      AcksInEveryRun(es[..|es| - 1]);
      StepAcks(Run(es[..|es| - 1]).state, es[|es| - 1]);
    }
  }

  /** The data properties are, in order, a prefix of the bytes read; the rest is still buffered. */
  lemma {:induction false} StreamIntegrity(es: seq<Event>)
    requires Legal(es)
    ensures Written(Run(es).state.log) + Run(es).state.buffer == ReadBytes(es)
    ensures Written(Run(es).state.log) <= ReadBytes(es)
    ensures SmallChunks(Run(es).state.log) && |Run(es).state.buffer| <= 0x1_0000
    ensures NoDataAfterZero(Run(es).state.log)
  {
    RunKeeps(es);
  }

  /**
   * No property is written while the previous one is unacknowledged, and an
   * open source is never forgotten: it is being read, or a property is out
   * whose deletion will resume it.
   */
  lemma {:induction false} AckDisciplineNoStall(es: seq<Event>)
    requires Legal(es)
    ensures AckedBetween(Run(es).state.log)
    ensures var s := Run(es).state;
            s.fdOpen ==> s.armed || (s.ackPending && s.incremental && s.waiting && Step(s, Deleted).armed)
    ensures var s := Run(es).state; s.armed ==> |s.buffer| < CHUNK
  {
    RunKeeps(es);
  }

  /** A finished transfer has written every byte read, in the form its length asks for. */
  lemma {:induction false} ReleaseComplete(es: seq<Event>)
    requires Legal(es) && !Run(es).state.waiting
    ensures Written(Run(es).state.log) == ReadBytes(es)
    ensures Run(es).state.incremental <==> |ReadBytes(es)| >= 0x1_0000
    ensures !Run(es).state.incremental ==> Run(es).state.log == [Wrote(Data(ReadBytes(es)))]
    ensures Run(es).state.incremental ==>
              Run(es).state.log[0] == Wrote(Incr) && 1 <= ZeroLengths(Run(es).state.log) <= 2
  {
    RunKeeps(es);
    var s := Run(es).state;
    assert Written(s.log) + [] == Written(s.log);
  }

  /** Once the source has ended, at most two deletions by the requestor finish an incremental transfer. */
  lemma {:induction false} DrainsAfterEof(es: seq<Event>)
    requires Legal(es) && Run(es).eof && Run(es).state.waiting
    ensures var s := Run(es).state;
            s.incremental && s.ackPending && !Step(Step(s, Deleted), Deleted).waiting
    ensures Written(Step(Step(Run(es).state, Deleted), Deleted).log) == ReadBytes(es)
  {
    RunKeeps(es);
    var s := Run(es).state;
    DeletedKeeps(s, ReadBytes(es), true);
    DeletedKeeps(OnDeleted(s), ReadBytes(es), true);
    var u := OnDeleted(OnDeleted(s));
    assert Written(u.log) + [] == Written(u.log);
  }

  /** The transfer after end of file and the requestor's remaining deletions. */
  function Finish(s: State): State {
    var t := Step(s, Readable(Got([])));
    var u := Step(t, Deleted);
    if u.waiting then Step(u, Deleted) else u
  }

  lemma {:induction false} EofZeros(s: State)
    requires s.incremental && |s.buffer| < CHUNK
    ensures var t := OnReadable(s, Got([]));
            && ZeroLengths(t.log) == ZeroLengths(s.log) + (if s.buffer == [] && !s.ackPending then 1 else 0)
            && t.incremental && !t.fdOpen && t.waiting == s.waiting
            && t.buffer == if s.ackPending then s.buffer else []
  {
    assert s.buffer + [] == s.buffer;
    LogSnoc(s.log, Wrote(Data(s.buffer)));
  }

  lemma {:induction false} DeletedZeros(s: State)
    requires s.incremental && s.waiting && !s.fdOpen
    ensures var t := OnDeleted(s);
            && ZeroLengths(t.log) == ZeroLengths(s.log) + (if s.buffer == [] then 1 else 0)
            && t.incremental && !t.fdOpen && t.buffer == [] && t.waiting == (s.buffer != [])
  {
    LogSnoc(s.log, Acked);
    LogSnoc(s.log + [Acked], Wrote(Data(s.buffer)));
  }

  /** Two zero-length properties end the transfer exactly when the end of file finds nothing buffered and nothing unacknowledged. */
  lemma {:induction false} TwoZerosIff(es: seq<Event>)
    requires Legal(es) && Enabled(Run(es).state, Readable(Got([]))) && Run(es).state.incremental
    ensures var s := Run(es).state;
            !Finish(s).waiting &&
            ZeroLengths(Finish(s).log) == if s.buffer == [] && !s.ackPending then 2 else 1
  {
    RunKeeps(es);
    var s := Run(es).state;
    EofZeros(s);
    var t := OnReadable(s, Got([]));
    DeletedZeros(t);
    if t.buffer != [] {
      DeletedZeros(OnDeleted(t));
    }
  }

  // ----- the handlers -----

  /** The selection fields of sl_context; the wl_array is a fixed block of CHUNK bytes once allocated. */
  class Context {
    var fdOpen: bool
    var armed: bool
    var ackPending: bool
    var incremental: bool
    var waiting: bool
    var data: array<byte>
    var size: nat
    var log: seq<Item>
    var notices: seq<Notice>

    ghost predicate Valid()
      reads this
    {
      size <= data.Length && (data.Length == 0 || data.Length == CHUNK)
    }

    ghost function View(): State
      requires Valid()
      reads this, data
    {
      State(fdOpen, armed, ackPending, incremental, waiting, data[..size], log, notices)
    }

    /** sl_send_data, after the pipe is open. */
    constructor ()
      ensures Valid() && View() == Start
    {
      fdOpen, armed, ackPending, incremental, waiting := true, true, false, false, true;
      data, size := new byte[0], 0;
      log, notices := [], [];
    }

    /** sl_send_selection_data. */
    method SendSelectionData()
      requires Valid() && !ackPending
      modifies this`log, this`ackPending, this`size
      ensures Valid() && View() == Send(old(View()))
    {
      log := log + [Wrote(Data(data[..size]))];
      ackPending := true;
      size := 0;
    }

    /** The read call: bytes land behind the buffered ones. */
    method ReadInto(bytes: seq<byte>)
      requires Valid() && size + |bytes| <= data.Length
      modifies this`size, data
      ensures Valid() && size == old(size) + |bytes|
      ensures data[..size] == old(data[..size]) + bytes
    {
      for i := 0 to |bytes|
        invariant size == old(size)
        invariant data[..size + i] == old(data[..size]) + bytes[..i]
      {
        data[size + i] := bytes[i];
      }
      size := size + |bytes|;
    }

    /** The buffer is full. */
    method HandleFull()
      requires Valid()
      modifies this`incremental, this`log, this`ackPending, this`notices, this`size
      ensures Valid() && View() == OnFull(old(View()))
    {
      if !incremental {
        incremental := true;
        log := log + [Wrote(Incr)];
        ackPending := true;
        notices := notices + [Accepted];
      } else if !ackPending {
        SendSelectionData();
      }
    }

    /** The source has ended. */
    method HandleEof()
      requires Valid()
      modifies this`log, this`ackPending, this`notices, this`size, this`waiting
      ensures Valid() && View() == OnEof(old(View()))
    {
      if !ackPending {
        SendSelectionData();
      }
      if !incremental {
        notices := notices + [Accepted];
        waiting := false;
      }
    }

    /** sl_handle_selection_fd_readable. */
    method HandleReadable(r: ReadResult)
      requires Valid() && Enabled(View(), Readable(r))
      modifies this, data
      ensures Valid() && View() == OnReadable(old(View()), r)
    {
      if data.Length == 0 {
        data := new byte[CHUNK];
      }
      match r {
        case Failed =>
          notices := notices + [Refused];
          fdOpen := false;
        case Got(bytes) =>
          ReadInto(bytes);
          if size >= CHUNK {
            HandleFull();
          } else if bytes == [] {
            HandleEof();
            fdOpen := false;
          } else {
            return;
          }
      }
      armed := false;
    }

    /** sl_handle_property_notify for the transfer property. */
    method HandleDeleted()
      requires Valid()
      modifies this
      ensures Valid() && View() == OnDeleted(old(View()))
    {
      if waiting && incremental {
        var dataSize := size;
        ackPending := false;
        log := log + [Acked];
        if fdOpen {
          if dataSize > 0 {
            SendSelectionData();
          }
          armed := true;
          return;
        }
        SendSelectionData();
        if dataSize == 0 {
          waiting := false;
        }
      }
    }
  }
}

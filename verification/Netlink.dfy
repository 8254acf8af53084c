/** The message builder and the reply reader of src/system/netlink.rs. */
module Netlink {
  import opened Machine
  import opened NetlinkFormat

  const NLMSG_ERROR: u16 := 2

  /** A growing buffer: Buffer<Vec<u8>>. */
  class Buffer {
    var bytes: seq<byte>

    constructor ()
      ensures bytes == []
    {
      bytes := [];
    }

    method Next(size: nat)
      modifies this
      ensures bytes == old(bytes) + Zeros(size)
    {
      bytes := bytes + Zeros(size);
    }

    method WriteAt(offset: nat, data: seq<byte>)
      requires offset + |data| <= |bytes|
      modifies this
      ensures bytes == old(bytes[..offset]) + data + old(bytes[offset + |data|..])
    {
      bytes := bytes[..offset] + data + bytes[offset + |data|..];
    }

    method Write(data: seq<byte>)
      modifies this
      ensures bytes == old(bytes) + data
    {
      var offset := |bytes|;
      Next(|data|);
      WriteAt(offset, data);
    }

    method Align()
      modifies this
      ensures bytes == Aligned(old(bytes))
    {
      var alignedLen := (|bytes| + 3) / 4 * 4;
      Next(alignedLen - |bytes|);
    }

    /** append_attr; the source asserts that the length fits. */
    method AppendAttr(kind: u16, data: seq<byte>)
      requires Fits(Record(kind, data)) && OnBoundary(|bytes|)
      modifies this
      ensures bytes == old(bytes) + EncodeRecord(Record(kind, data))
    {
      ghost var before := bytes;
      Write(U16(|data| + ATTR_HEADER_LEN));
      Write(U16(kind));
      Write(data);
      assert bytes == before + (RecordHeader(Record(kind, data)) + data);
      AlignedAfter(before, RecordHeader(Record(kind, data)) + data);
      Align();
    }
  }

  /** The bytes before the length is filled in. */
  function Unfinished(m: Message): seq<byte> {
    Header(0, m.mtype, m.flags, m.seqno) + m.family + EncodeRecords(m.records)
  }

  lemma {:induction false} UnfinishedOnBoundary(m: Message)
    requires OnBoundary(|m.family|)
    ensures OnBoundary(|Unfinished(m)|)
  {
    RecordsOnBoundary(m.records);
    BoundaryAfter(HEADER_LEN, |m.family|);
    BoundaryAfter(HEADER_LEN + |m.family|, |EncodeRecords(m.records)|);
  }

  lemma {:induction false} UnfinishedWith(m: Message, r: Record)
    ensures Unfinished(m.(records := m.records + [r])) == Unfinished(m) + EncodeRecord(r)
  {
    EncodeRecordsAppend(m.records, r);
  }

  /** Writing the length over the first four bytes finishes the message. */
  lemma {:induction false} FinishedIs(m: Message)
    ensures U32(|Unfinished(m)|) + Unfinished(m)[4..] == Encode(m)
  {
    var len := MessageLength(m);
    var mid, end := U16(m.mtype) + U16(m.flags), U32(m.seqno) + U32(0);
    var tail := m.family + EncodeRecords(m.records);
    assert Unfinished(m) == U32(0) + (mid + end + tail);
    Slices([], U32(0), mid + end + tail);
    assert [] + U32(0) + (mid + end + tail) == Unfinished(m);
    assert Encode(m) == U32(len) + (mid + end + tail);
  }

  /** The nested attribute's own buffer, before its length is written. */
  function NestedStart(outer: u16): seq<byte> {
    U16(0) + U16(NestedKind(outer))
  }

  lemma {:induction false} NestedIs(outer: u16, children: seq<Record>)
    ensures var b := NestedStart(outer) + EncodeRecords(children);
            OnBoundary(|b|) && U16(|b|) + b[2..] == EncodeRecord(ToRecord(Nested(outer, children)))
  {
    var body := EncodeRecords(children);
    var b := NestedStart(outer) + body;
    var r := ToRecord(Nested(outer, children));
    RecordsOnBoundary(children);
    BoundaryAfter(4, |body|);
    assert b[2..] == U16(NestedKind(outer)) + body;
    assert U16(|b|) + (U16(NestedKind(outer)) + body) == RecordHeader(r) + r.payload;
    AlignedAlready(RecordHeader(r) + r.payload);
  }

  function NestedPrefix(outer: u16, children: seq<Record>, i: nat): seq<byte>
    requires i <= |children|
  {
    NestedStart(outer) + EncodeRecords(children[..i])
  }

  lemma {:induction false} NestedPrefixStep(outer: u16, children: seq<Record>, i: nat)
    requires i < |children|
    ensures OnBoundary(|NestedPrefix(outer, children, i)|)
    ensures NestedPrefix(outer, children, i + 1) == NestedPrefix(outer, children, i) + EncodeRecord(children[i])
  {
    RecordsOnBoundary(children[..i]);
    BoundaryAfter(4, |EncodeRecords(children[..i])|);
    EncodeRecordsAppend(children[..i], children[i]);
    assert children[..i + 1] == children[..i] + [children[i]];
  }

  /** The closure of with_nested: attributes appended to the nested buffer. */
  method AppendChildren(nested: Buffer, outer: u16, children: seq<Record>)
    requires AllFit(children) && nested.bytes == NestedStart(outer)
    modifies nested
    ensures nested.bytes == NestedStart(outer) + EncodeRecords(children)
  {
    assert NestedStart(outer) + [] == NestedStart(outer);
    for i := 0 to |children|
      invariant nested.bytes == NestedPrefix(outer, children, i)
    {
      NestedPrefixStep(outer, children, i);
      nested.AppendAttr(children[i].kind, children[i].payload);
    }
    assert children[..|children|] == children;
  }

  /** Builds the nested attribute in a buffer of its own, as with_nested does. */
  method BuildNested(outer: u16, children: seq<Record>) returns (r: seq<byte>)
    requires AllFit(children)
    ensures r == EncodeRecord(ToRecord(Nested(outer, children)))
  {
    var nested := new Buffer();
    nested.Write(U16(0));
    nested.Write(U16(NestedKind(outer)));
    assert nested.bytes == NestedStart(outer);
    AppendChildren(nested, outer, children);
    NestedIs(outer, children);
    AlignedAlready(nested.bytes);
    nested.Align();
    nested.WriteAt(0, U16(|nested.bytes|));
    r := nested.bytes;
  }

  class NetlinkMessage {
    const buffer: Buffer
    ghost var content: Message

    ghost predicate Valid()
      reads this, buffer
    {
      buffer.bytes == Unfinished(content) && OnBoundary(|content.family|)
    }

    constructor (mtype: u16, flags: u16, seqno: u32)
      ensures Valid() && fresh(buffer) && content == Message(mtype, flags, seqno, [], [])
    {
      var b := new Buffer();
      b.Next(HEADER_LEN);
      b.WriteAt(4, U16(mtype));
      b.WriteAt(6, U16(flags));
      b.WriteAt(8, U32(seqno));
      buffer := b;
      content := Message(mtype, flags, seqno, [], []);
      new;
      HeaderWritten(mtype, flags, seqno);
      assert Header(0, mtype, flags, seqno) + [] + [] == Header(0, mtype, flags, seqno);
    }

    /** with_ifinfomsg, with_rtmsg and with_ifaddrmsg: 16, 12 and 8 bytes. */
    method WithFamily(family: seq<byte>)
      requires Valid() && content.family == [] && content.records == [] && OnBoundary(|family|)
      modifies this, buffer
      ensures Valid() && content == old(content).(family := family)
    {
      buffer.Write(family);
      content := content.(family := family);
    }

    method AppendAttr(kind: u16, data: seq<byte>)
      requires Valid() && Fits(Record(kind, data))
      modifies this, buffer
      ensures Valid() && content == old(content).(records := old(content).records + [ToRecord(Leaf(kind, data))])
    {
      UnfinishedOnBoundary(content);
      UnfinishedWith(content, Record(kind, data));
      buffer.AppendAttr(kind, data);
      content := content.(records := content.records + [Record(kind, data)]);
    }

    method WithNested(outer: u16, children: seq<Record>)
      requires Valid() && AllFit(children)
      modifies this, buffer
      ensures Valid()
      ensures content == old(content).(records := old(content).records + [ToRecord(Nested(outer, children))])
    {
      var nested := BuildNested(outer, children);
      ghost var r := ToRecord(Nested(outer, children));
      UnfinishedWith(content, r);
      UnfinishedOnBoundary(content.(records := content.records + [r]));
      buffer.Write(nested);
      AlignedAlready(buffer.bytes);
      buffer.Align();
      content := content.(records := content.records + [r]);
    }

    /** done and as_bytes */
    method Done() returns (b: seq<byte>)
      requires Valid()
      modifies buffer
      ensures b == Encode(content)
    {
      UnfinishedOnBoundary(content);
      AlignedAlready(buffer.bytes);
      buffer.Align();
      FinishedIs(content);
      buffer.WriteAt(0, U32(|buffer.bytes|));
      b := buffer.bytes;
    }
  }

  lemma {:induction false} HeaderWritten(mtype: u16, flags: u16, seqno: u32)
    ensures var a := Zeros(4) + U16(mtype) + Zeros(10);
            var b := a[..6] + U16(flags) + a[8..];
            b[..8] + U32(seqno) + b[12..] == Header(0, mtype, flags, seqno)
  {
  }

  // ----- replies -----

  datatype Response = Acked | ErrorResponse(code: int) | Unexpected

  /** The u32 read as an i32. */
  function AsInt32(n: u32): (r: int)
    ensures IsInt32(r) && (r - n) % 0x1_0000_0000 == 0
  {
    if n >= 0x8000_0000 then n - 0x1_0000_0000 else n
  }

  function Outcome(b: seq<byte>): Response {
    if |b| < HEADER_LEN + 4 || ReadU16(b[4..6]) != NLMSG_ERROR then Unexpected
    else
      var code := ReadU32(b[16..20]);
      if code == 0 then Acked else ErrorResponse(AsInt32(code))
  }

  lemma {:induction false} SignedBack(code: int)
    requires IsInt32(code)
    ensures AsInt32(code % 0x1_0000_0000) == code && (code % 0x1_0000_0000 == 0 <==> code == 0)
  {
  }

  lemma {:induction false} CodeInReply(m: Message, n: u32, request: seq<byte>)
    requires m.family == U32(n) + request
    ensures |Encode(m)| >= 20 && ReadU32(Encode(m)[16..20]) == n
  {
    var b := Encode(m);
    EncodedParts(m);
    assert b[16..20] == b[16..16 + |m.family|][..4];
    assert m.family[..4] == U32(n);
    U32Back(n);
  }

  /** An error message carries the code, then the request it answers; code zero is the acknowledgement. */
  lemma {:induction false} ReplyOutcome(flags: u16, seqno: u32, code: int, request: seq<byte>)
    requires IsInt32(code)
    ensures var reply := Encode(Message(NLMSG_ERROR, flags, seqno, U32(code % 0x1_0000_0000) + request, []));
            Outcome(reply) == if code == 0 then Acked else ErrorResponse(code)
  {
    var m := Message(NLMSG_ERROR, flags, seqno, U32(code % 0x1_0000_0000) + request, []);
    EncodedFields(m);
    CodeInReply(m, code % 0x1_0000_0000, request);
    SignedBack(code);
  }

  /** InBuffer */
  class InBuffer {
    const bytes: seq<byte>
    var offset: nat

    constructor (received: seq<byte>)
      ensures bytes == received && offset == 0
    {
      bytes, offset := received, 0;
    }

    method Skip(n: nat)
      modifies this
      ensures offset == old(offset) + n
    {
      offset := offset + n;
    }

    method Next(size: nat) returns (b: seq<byte>)
      requires offset + size <= |bytes|
      modifies this
      ensures offset == old(offset) + size && b == bytes[old(offset)..offset]
    {
      var at := offset;
      Skip(size);
      b := bytes[at..at + size];
    }
  }

  /** The check of send_message, then process_response. */
  method ProcessResponse(received: seq<byte>) returns (r: Response)
    ensures r == Outcome(received)
  {
    if |received| < HEADER_LEN + 4 {
      return Unexpected;
    }
    var resp := new InBuffer(received);
    resp.Skip(4);
    var b := resp.Next(2);
    var mtype := ReadU16(b);
    resp.Skip(10);
    if mtype == NLMSG_ERROR {
      b := resp.Next(4);
      var code := ReadU32(b);
      return if code == 0 then Acked else ErrorResponse(AsInt32(code));
    }
    return Unexpected;
  }
}

/**
 * The byte format of netlink messages built by src/system/netlink.rs (section
 * 2.3.2 of RFC 3549): what the builder writes, an attribute walk that reads it
 * back, and when the two are inverse.
 */
module NetlinkFormat {
  import opened Machine

  type u16 = x: int | 0 <= x < 0x1_0000
  type u32 = x: int | 0 <= x < 0x1_0000_0000

  const HEADER_LEN: nat := 16
  const ATTR_HEADER_LEN: nat := 4
  const U16_MAX: nat := 0xffff
  const NESTED_FLAG: nat := 0x8000

  // ----- integers, little-endian as on x86-64 -----

  /** A length cast to u16 and written. */
  function U16(n: nat): (b: seq<byte>)
    ensures |b| == 2
  {
    [n % 0x100, n / 0x100 % 0x100]
  }

  function U32(n: nat): (b: seq<byte>)
    ensures |b| == 4
  {
    U16(n % 0x1_0000) + U16(n / 0x1_0000)
  }

  function ReadU16(b: seq<byte>): u16
    requires |b| == 2
  {
    var lo: int, hi: int := b[0], b[1];
    lo + 0x100 * hi
  }

  function ReadU32(b: seq<byte>): u32
    requires |b| == 4
  {
    var lo: int, hi: int := ReadU16(b[..2]), ReadU16(b[2..]);
    lo + 0x1_0000 * hi
  }

  lemma {:induction false} U16Back(n: nat)
    ensures ReadU16(U16(n)) == n % 0x1_0000
  {
    assert n == 0x1_0000 * (n / 0x1_0000) + n % 0x1_0000;
    assert n / 0x100 == 0x100 * (n / 0x1_0000) + n % 0x1_0000 / 0x100;
  }

  lemma {:induction false} SplitHalves(n: nat)
    ensures n % 0x1_0000_0000 == 0x1_0000 * (n / 0x1_0000 % 0x1_0000) + n % 0x1_0000
  {
    var lo, hi := n % 0x1_0000, n / 0x1_0000;
    var rest := 0x1_0000 * (hi % 0x1_0000) + lo;
    assert n == 0x1_0000_0000 * (hi / 0x1_0000) + rest;
    assert 0 <= rest < 0x1_0000_0000;
  }

  lemma {:induction false} U32Back(n: nat)
    ensures ReadU32(U32(n)) == n % 0x1_0000_0000
  {
    var lo, hi := n % 0x1_0000, n / 0x1_0000;
    assert U32(n)[..2] == U16(lo) && U32(n)[2..] == U16(hi);
    U16Back(lo);
    U16Back(hi);
    SplitHalves(n);
  }

  // ----- alignment -----

  predicate OnBoundary(n: nat) {
    n % 4 == 0
  }

  lemma {:induction false} BoundaryAfter(a: nat, b: nat)
    requires OnBoundary(a) && OnBoundary(b)
    ensures OnBoundary(a + b)
  {
  }

  /** (n + 3) & !3 */
  function AlignedLength(n: nat): (r: nat)
    ensures n <= r < n + 4 && OnBoundary(r)
  {
    (n + 3) / 4 * 4
  }

  function Aligned(b: seq<byte>): (r: seq<byte>)
    ensures |r| == AlignedLength(|b|) && b <= r
  {
    b + Zeros(AlignedLength(|b|) - |b|)
  }

  lemma {:induction false} AlignedAfter(a: seq<byte>, b: seq<byte>)
    requires OnBoundary(|a|)
    ensures Aligned(a + b) == a + Aligned(b)
  {
    var k := |a| / 4;
    assert |a| == 4 * k;
    assert AlignedLength(|a| + |b|) == |a| + AlignedLength(|b|) by {
      assert (4 * k + |b| + 3) / 4 == k + (|b| + 3) / 4;
    }
    assert a + (b + Zeros(AlignedLength(|b|) - |b|)) == a + b + Zeros(AlignedLength(|b|) - |b|);
  }

  lemma {:induction false} AlignedAlready(b: seq<byte>)
    requires OnBoundary(|b|)
    ensures Aligned(b) == b
  {
    assert AlignedLength(|b|) == |b|;
    assert b + [] == b;
  }

  // ----- slices -----

  lemma {:induction false} Slices(a: seq<byte>, b: seq<byte>, c: seq<byte>)
    ensures var s := a + b + c; s[..|a|] == a && s[|a|..|a| + |b|] == b && s[|a| + |b|..] == c
  {
  }

  lemma {:induction false} FrontSlice(a: seq<byte>, b: seq<byte>, i: nat, j: nat)
    requires i <= j <= |a|
    ensures (a + b)[i..j] == a[i..j]
  {
  }

  // ----- attributes -----

  /** An attribute on the wire. */
  datatype Record = Record(kind: u16, payload: seq<byte>)

  /** What callers append: a plain attribute, or a nested one holding plain ones. */
  datatype Attr = Leaf(kind: u16, data: seq<byte>) | Nested(outer: u16, children: seq<Record>)

  function RecordLength(r: Record): nat {
    ATTR_HEADER_LEN + |r.payload|
  }

  /** The length fits its 16-bit field. */
  predicate Fits(r: Record) {
    RecordLength(r) <= U16_MAX
  }

  predicate AllFit(rs: seq<Record>) {
    forall i :: 0 <= i < |rs| ==> Fits(rs[i])
  }

  function RecordHeader(r: Record): (b: seq<byte>)
    ensures |b| == ATTR_HEADER_LEN
  {
    U16(RecordLength(r)) + U16(r.kind)
  }

  function EncodeRecord(r: Record): (b: seq<byte>)
    ensures |b| == AlignedLength(RecordLength(r))
  {
    Aligned(RecordHeader(r) + r.payload)
  }

  function EncodeRecords(rs: seq<Record>): seq<byte> {
    if rs == [] then [] else EncodeRecord(rs[0]) + EncodeRecords(rs[1..])
  }

  lemma {:induction false} RecordsOnBoundary(rs: seq<Record>)
    ensures OnBoundary(|EncodeRecords(rs)|)
  {
    if rs != [] {
      RecordsOnBoundary(rs[1..]);
      BoundaryAfter(|EncodeRecord(rs[0])|, |EncodeRecords(rs[1..])|);
    }
  }

  /** atype | NLA_F_NESTED */
  function NestedKind(kind: u16): u16 {
    if kind >= NESTED_FLAG then kind else kind + NESTED_FLAG
  }

  function ToRecord(a: Attr): Record {
    match a
    case Leaf(kind, data) => Record(kind, data)
    case Nested(outer, children) => Record(NestedKind(outer), EncodeRecords(children))
  }

  function ToRecords(attrs: seq<Attr>): (rs: seq<Record>)
    ensures |rs| == |attrs| && forall i :: 0 <= i < |attrs| ==> rs[i] == ToRecord(attrs[i])
  {
    if attrs == [] then [] else ToRecords(attrs[..|attrs| - 1]) + [ToRecord(attrs[|attrs| - 1])]
  }

  /** A walk over attributes as a receiver does it; None when a length is out of bounds. */
  function Walk(b: seq<byte>): Option<seq<Record>>
    decreases |b|
  {
    if b == [] then Some([])
    else if |b| < ATTR_HEADER_LEN then None
    else
      var len := ReadU16(b[..2]);
      if len < ATTR_HEADER_LEN || len > |b| then None
      else
        var rest := Walk(b[Min(AlignedLength(len), |b|)..]);
        if rest.None? then None
        else Some([Record(ReadU16(b[2..4]), b[4..len])] + rest.value)
  }

  lemma {:induction false} RecordHeaderBack(r: Record)
    ensures var h := RecordHeader(r);
            ReadU16(h[..2]) == RecordLength(r) % 0x1_0000 && ReadU16(h[2..4]) == r.kind
  {
    var h := RecordHeader(r);
    assert h[..2] == U16(RecordLength(r)) && h[2..4] == U16(r.kind);
    U16Back(RecordLength(r));
    U16Back(r.kind);
  }

  lemma {:induction false} EncodedHeader(r: Record, rest: seq<byte>)
    ensures var b := EncodeRecord(r) + rest;
            && |b| >= 4
            && ReadU16(b[..2]) == RecordLength(r) % 0x1_0000
            && ReadU16(b[2..4]) == r.kind
  {
    var b, h := EncodeRecord(r) + rest, RecordHeader(r);
    var tail := Zeros(AlignedLength(RecordLength(r)) - RecordLength(r)) + rest;
    assert b == h + (r.payload + tail);
    FrontSlice(h, r.payload + tail, 0, 2);
    FrontSlice(h, r.payload + tail, 2, 4);
    RecordHeaderBack(r);
  }

  lemma {:induction false} EncodedPayload(r: Record, rest: seq<byte>)
    ensures var b := EncodeRecord(r) + rest;
            && |b| >= AlignedLength(RecordLength(r)) >= RecordLength(r)
            && b[4..RecordLength(r)] == r.payload
            && b[AlignedLength(RecordLength(r))..] == rest
  {
    var b, h := EncodeRecord(r) + rest, RecordHeader(r);
    var tail := Zeros(AlignedLength(RecordLength(r)) - RecordLength(r)) + rest;
    assert b == h + r.payload + tail;
    Slices(h, r.payload, tail);
    Slices([], EncodeRecord(r), rest);
    assert [] + EncodeRecord(r) + rest == b;
  }

  lemma {:induction false} WalkUnfolds(b: seq<byte>, r: Record)
    requires |b| >= AlignedLength(RecordLength(r))
    requires ReadU16(b[..2]) == RecordLength(r) && ReadU16(b[2..4]) == r.kind
    requires b[4..RecordLength(r)] == r.payload
    ensures var rest := Walk(b[AlignedLength(RecordLength(r))..]);
            Walk(b) == if rest.None? then None else Some([r] + rest.value)
  {
    assert Min(AlignedLength(RecordLength(r)), |b|) == AlignedLength(RecordLength(r));
  }

  /** A record whose length fits is read back and the walk goes on behind it. */
  lemma {:induction false} WalkFitting(r: Record, rest: seq<byte>)
    requires Fits(r)
    ensures Walk(EncodeRecord(r) + rest)
         == if Walk(rest).None? then None else Some([r] + Walk(rest).value)
  {
    EncodedHeader(r, rest);
    EncodedPayload(r, rest);
    WalkUnfolds(EncodeRecord(r) + rest, r);
  }

  /** A record whose length does not fit is never read back: its payload is cut short. */
  lemma {:induction false} WalkOversized(r: Record, rest: seq<byte>)
    requires !Fits(r)
    ensures var w := Walk(EncodeRecord(r) + rest); w.None? || (|w.value| > 0 && w.value[0] != r)
  {
    EncodedHeader(r, rest);
    var b := EncodeRecord(r) + rest;
    var len := ReadU16(b[..2]);
    if ATTR_HEADER_LEN <= len <= |b| {
      assert |b[4..len]| < |r.payload|;
    }
  }

  /** Walking what was encoded gives the records back if and only if every length fits 16 bits. */
  lemma {:induction false} WalkEncodedIff(rs: seq<Record>)
    ensures Walk(EncodeRecords(rs)) == Some(rs) <==> AllFit(rs)
  {
    if rs != [] {
      var rest := EncodeRecords(rs[1..]);
      WalkEncodedIff(rs[1..]);
      if Fits(rs[0]) {
        WalkFitting(rs[0], rest);
        assert rs == [rs[0]] + rs[1..];
        assert AllFit(rs) <==> AllFit(rs[1..]);
        if !Walk(rest).None? {
          assert ([rs[0]] + Walk(rest).value)[1..] == Walk(rest).value;
        }
      } else {
        WalkOversized(rs[0], rest);
      }
    }
  }

  lemma {:induction false} EncodeRecordsAppend(rs: seq<Record>, r: Record)
    ensures EncodeRecords(rs + [r]) == EncodeRecords(rs) + EncodeRecord(r)
  {
    if rs == [] {
      assert [r][1..] == [];
      assert EncodeRecord(r) + [] == [] + EncodeRecord(r);
    } else {
      assert (rs + [r])[1..] == rs[1..] + [r];
      EncodeRecordsAppend(rs[1..], r);
    }
  }

  lemma {:induction false} EncodeRecordsConcat(a: seq<Record>, b: seq<Record>)
    ensures EncodeRecords(a + b) == EncodeRecords(a) + EncodeRecords(b)
  {
    if a == [] {
      assert [] + b == b;
    } else {
      assert (a + b)[1..] == a[1..] + b;
      EncodeRecordsConcat(a[1..], b);
    }
  }

  // ----- messages -----

  /** The 16-byte header; the builder starts with length zero. */
  function Header(len: nat, mtype: u16, flags: u16, seqno: u32): (b: seq<byte>)
    ensures |b| == HEADER_LEN
  {
    U32(len) + (U16(mtype) + U16(flags)) + (U32(seqno) + U32(0))
  }

  /** A message: its header fields, the family header behind it, and the attributes. */
  datatype Message = Message(mtype: u16, flags: u16, seqno: u32, family: seq<byte>, records: seq<Record>)

  function MessageLength(m: Message): nat {
    HEADER_LEN + |m.family| + |EncodeRecords(m.records)|
  }

  function Encode(m: Message): (b: seq<byte>)
    ensures |b| == MessageLength(m)
  {
    Header(MessageLength(m), m.mtype, m.flags, m.seqno) + m.family + EncodeRecords(m.records)
  }

  /** A receiver that knows the size of the family header. */
  function Decode(b: seq<byte>, familyLen: nat): Option<Message> {
    if |b| < HEADER_LEN + familyLen || ReadU32(b[..4]) != |b| then None
    else
      var rs := Walk(b[HEADER_LEN + familyLen..]);
      if rs.None? then None
      else Some(Message(ReadU16(b[4..6]), ReadU16(b[6..8]), ReadU32(b[8..12]), b[16..16 + familyLen], rs.value))
  }

  lemma {:induction false} HeaderSlices(len: nat, mtype: u16, flags: u16, seqno: u32)
    ensures var h := Header(len, mtype, flags, seqno);
            h[..4] == U32(len) && h[4..6] == U16(mtype) && h[6..8] == U16(flags) && h[8..12] == U32(seqno)
  {
    var h := Header(len, mtype, flags, seqno);
    var mid, end := U16(mtype) + U16(flags), U32(seqno) + U32(0);
    Slices(U32(len), mid, end);
    assert h[4..6] == mid[..2] && h[6..8] == mid[2..] && h[8..12] == end[..4];
  }

  lemma {:induction false} HeaderBack(len: nat, mtype: u16, flags: u16, seqno: u32)
    ensures var h := Header(len, mtype, flags, seqno);
            && ReadU32(h[..4]) == len % 0x1_0000_0000
            && ReadU16(h[4..6]) == mtype && ReadU16(h[6..8]) == flags && ReadU32(h[8..12]) == seqno
  {
    HeaderSlices(len, mtype, flags, seqno);
    U32Back(len);
    U16Back(mtype);
    U16Back(flags);
    U32Back(seqno);
  }

  lemma {:induction false} EncodedParts(m: Message)
    ensures var b := Encode(m); var n := HEADER_LEN + |m.family|;
            && b[..HEADER_LEN] == Header(MessageLength(m), m.mtype, m.flags, m.seqno)
            && b[HEADER_LEN..n] == m.family && b[n..] == EncodeRecords(m.records)
  {
    Slices(Header(MessageLength(m), m.mtype, m.flags, m.seqno), m.family, EncodeRecords(m.records));
  }

  lemma {:induction false} EncodedFields(m: Message)
    ensures var b := Encode(m);
            && ReadU32(b[..4]) == |b| % 0x1_0000_0000
            && ReadU16(b[4..6]) == m.mtype && ReadU16(b[6..8]) == m.flags && ReadU32(b[8..12]) == m.seqno
  {
    var b, h := Encode(m), Header(MessageLength(m), m.mtype, m.flags, m.seqno);
    EncodedParts(m);
    HeaderBack(MessageLength(m), m.mtype, m.flags, m.seqno);
    assert b[..4] == h[..4] && b[4..6] == h[4..6] && b[6..8] == h[6..8] && b[8..12] == h[8..12];
  }

  lemma {:induction false} DecodeParts(b: seq<byte>, m: Message)
    requires |b| >= HEADER_LEN + |m.family| && b[HEADER_LEN..HEADER_LEN + |m.family|] == m.family
    requires ReadU16(b[4..6]) == m.mtype && ReadU16(b[6..8]) == m.flags && ReadU32(b[8..12]) == m.seqno
    ensures Decode(b, |m.family|) == Some(m)
       <==> ReadU32(b[..4]) == |b| && Walk(b[HEADER_LEN + |m.family|..]) == Some(m.records)
  {
  }

  /** Decoding gives the message back if and only if its size fits 32 bits and each attribute's 16. */
  lemma {:induction false} MessageRoundTripIff(m: Message)
    ensures Decode(Encode(m), |m.family|) == Some(m)
       <==> MessageLength(m) <= 0xffff_ffff && AllFit(m.records)
  {
    var b := Encode(m);
    assert ReadU32(b[..4]) == |b| <==> |b| <= 0xffff_ffff by {
      EncodedFields(m);
    }
    assert Walk(b[HEADER_LEN + |m.family|..]) == Some(m.records) <==> AllFit(m.records) by {
      EncodedParts(m);
      WalkEncodedIff(m.records);
    }
    assert Decode(b, |m.family|) == Some(m)
      <==> ReadU32(b[..4]) == |b| && Walk(b[HEADER_LEN + |m.family|..]) == Some(m.records) by {
      EncodedParts(m);
      EncodedFields(m);
      DecodeParts(b, m);
    }
  }

  /** The offset of attribute k. */
  function AttributeOffset(m: Message, k: nat): nat
    requires k <= |m.records|
  {
    HEADER_LEN + |m.family| + |EncodeRecords(m.records[..k])|
  }

  /** Attribute k and what follows start at its offset. */
  lemma {:induction false} AttributeAt(m: Message, k: nat)
    requires k <= |m.records|
    ensures AttributeOffset(m, k) <= |Encode(m)|
    ensures Encode(m)[AttributeOffset(m, k)..] == EncodeRecords(m.records[k..])
  {
    var before, after := EncodeRecords(m.records[..k]), EncodeRecords(m.records[k..]);
    var front := Header(MessageLength(m), m.mtype, m.flags, m.seqno) + m.family;
    assert EncodeRecords(m.records) == before + after by {
      assert m.records[..k] + m.records[k..] == m.records;
      EncodeRecordsConcat(m.records[..k], m.records[k..]);
    }
    assert Encode(m) == front + before + after;
    Slices(front, before, after);
  }

  /** With an aligned family header the message is a multiple of four bytes and so is every attribute's offset. */
  lemma {:induction false} AttributesAligned(m: Message, k: nat)
    requires OnBoundary(|m.family|) && k <= |m.records|
    ensures OnBoundary(AttributeOffset(m, k)) && OnBoundary(MessageLength(m))
  {
    RecordsOnBoundary(m.records[..k]);
    RecordsOnBoundary(m.records);
    BoundaryAfter(HEADER_LEN, |m.family|);
    BoundaryAfter(HEADER_LEN + |m.family|, |EncodeRecords(m.records[..k])|);
    BoundaryAfter(HEADER_LEN + |m.family|, |EncodeRecords(m.records)|);
  }

  /** The children of a nested attribute are read back by a second walk. */
  lemma {:induction false} NestedRoundTrip(outer: u16, children: seq<Record>)
    ensures Walk(ToRecord(Nested(outer, children)).payload) == Some(children) <==> AllFit(children)
    ensures ToRecord(Nested(outer, children)).kind >= NESTED_FLAG
  {
    WalkEncodedIff(children);
  }

  /** What append_attr asserts of the attribute, or of the children of a nested one. */
  predicate Appendable(a: Attr) {
    match a
    case Leaf(kind, data) => Fits(Record(kind, data))
    case Nested(_, children) => AllFit(children)
  }

  /** A nested attribute's length is cast, not asserted. */
  predicate NestedFits(a: Attr) {
    a.Nested? ==> Fits(ToRecord(a))
  }

  /** For any attributes a caller can append, the message is read back if and only if no nested length is cut off. */
  lemma {:induction false} BuiltRoundTripIff(m: Message, attrs: seq<Attr>)
    requires m.records == ToRecords(attrs) && MessageLength(m) <= 0xffff_ffff
    requires forall i :: 0 <= i < |attrs| ==> Appendable(attrs[i])
    ensures Decode(Encode(m), |m.family|) == Some(m) <==> forall i :: 0 <= i < |attrs| ==> NestedFits(attrs[i])
  {
    MessageRoundTripIff(m);
    forall i | 0 <= i < |attrs|
      ensures Fits(m.records[i]) <==> NestedFits(attrs[i])
    {
      assert Appendable(attrs[i]);
    }
  }

  /** Two children that may be appended and whose parent's length is cut off. */
  lemma {:induction false} OversizedNestedExample()
    ensures exists a: Attr :: Appendable(a) && !NestedFits(a)
  {
    var big := Record(1, Zeros(0xfff0));
    var children := [big, big];
    assert AllFit(children);
    assert children[1..] == [big];
    assert |EncodeRecords(children)| >= |EncodeRecord(big)| >= 0xfff0;
    assert EncodeRecords(children) == EncodeRecord(big) + EncodeRecords([big]);
    assert EncodeRecords([big]) == EncodeRecord(big) + EncodeRecords([]);
    var a := Nested(18, children);
    assert Appendable(a) && !NestedFits(a);
  }
}

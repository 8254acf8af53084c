/** The I/O bus of src/io/bus.rs: devices on disjoint address ranges. */
module IoBus {
  import opened Machine

  const U64: nat := 0x1_0000_0000_0000_0000

  /** A device and the range it occupies. */
  datatype Entry = Entry(base: nat, len: nat, device: nat)

  predicate Covers(e: Entry, addr: nat) {
    e.base <= addr < e.base + e.len
  }

  predicate Overlaps(e: Entry, base: nat, len: nat) {
    e.base < base + len && base < e.base + e.len
  }

  predicate Valid(e: Entry) {
    e.len > 0 && e.base + e.len <= U64
  }

  predicate KeyOrder(es: seq<Entry>, i: int, j: int) {
    0 <= i < j < |es| ==> es[i].base < es[j].base
  }

  predicate EndsBefore(es: seq<Entry>, i: int, j: int) {
    0 <= i < j < |es| ==> es[i].base + es[i].len <= es[j].base
  }

  /** The BTreeMap in iteration order: distinct keys, ascending; no empty range. */
  ghost predicate Keyed(es: seq<Entry>) {
    && (forall i, j :: KeyOrder(es, i, j))
    && (forall i :: 0 <= i < |es| ==> es[i].len > 0)
  }

  /** Ranges are non-empty, inside the address space and disjoint, in ascending order. */
  ghost predicate WellFormed(es: seq<Entry>) {
    && (forall i :: 0 <= i < |es| ==> Valid(es[i]))
    && (forall i, j :: EndsBefore(es, i, j))
  }

  /** Position of the last of the first n entries that starts at or before the address, or -1. */
  function LastAmong(es: seq<Entry>, addr: nat, n: nat): (k: int)
    requires n <= |es|
    ensures -1 <= k < n
    ensures k >= 0 ==> es[k].base <= addr
    ensures forall j :: k < j < n ==> es[j].base > addr
  {
    if n == 0 then -1
    else if es[n - 1].base <= addr then n - 1
    else LastAmong(es, addr, n - 1)
  }

  function LastAtOrBefore(es: seq<Entry>, addr: nat): int {
    LastAmong(es, addr, |es|)
  }

  /** get_device: offset and device. */
  function GetDevice(es: seq<Entry>, addr: nat): Option<(nat, nat)> {
    var k := LastAtOrBefore(es, addr);
    if k >= 0 && addr - es[k].base < es[k].len then Some((addr - es[k].base, es[k].device)) else None
  }

  /** base + len - 1 in 64-bit arithmetic. */
  function LastAddress(base: nat, len: nat): nat {
    (base + len - 1) % U64
  }

  /** The checks of `insert` before the map is touched. */
  predicate Accepts(es: seq<Entry>, base: nat, len: nat) {
    && len > 0
    && GetDevice(es, base).None?
    && (var k := LastAtOrBefore(es, LastAddress(base, len));
        k < 0 || es[k].base < base)
  }

  /** The map with a new entry behind all entries that start before it. */
  function Inserted(es: seq<Entry>, e: Entry): (r: seq<Entry>)
    ensures |r| == |es| + 1
  {
    Spliced(es, LastAtOrBefore(es, e.base) + 1, e)
  }

  function Spliced(es: seq<Entry>, k: nat, e: Entry): (r: seq<Entry>)
    requires k <= |es|
    ensures |r| == |es| + 1
  {
    es[..k] + [e] + es[k..]
  }

  /** The old position of entry i of the extended map. */
  function OldPosition(k: nat, i: int): int {
    if i < k then i else i - 1
  }

  lemma {:induction false} SplicedAt(es: seq<Entry>, k: nat, e: Entry, i: nat)
    requires k <= |es| && i <= |es|
    ensures Spliced(es, k, e)[i] == if i == k then e else es[OldPosition(k, i)]
  {
  }

  lemma {:induction false} InsertedAt(es: seq<Entry>, e: Entry, i: nat)
    requires i <= |es|
    ensures var k := LastAtOrBefore(es, e.base) + 1;
            Inserted(es, e)[i] == if i == k then e else es[OldPosition(k, i)]
  {
    SplicedAt(es, LastAtOrBefore(es, e.base) + 1, e, i);
  }

  // ----- meaning -----

  /** get_device agrees with a search of all ranges: the covering one, which is unique. */
  lemma {:induction false} GetDeviceIsTheCoveringOne(es: seq<Entry>, addr: nat, i: nat, j: nat)
    requires WellFormed(es) && i < |es| && j < |es| && Covers(es[i], addr)
    ensures GetDevice(es, addr) == Some((addr - es[i].base, es[i].device))
    ensures Covers(es[j], addr) ==> j == i
  {
    var k := LastAtOrBefore(es, addr);
    assert EndsBefore(es, i, k) && EndsBefore(es, i, j) && EndsBefore(es, j, i);
  }

  lemma {:induction false} NoDeviceMeansNoCover(es: seq<Entry>, addr: nat)
    requires WellFormed(es)
    ensures GetDevice(es, addr).None? <==> forall i :: 0 <= i < |es| ==> !Covers(es[i], addr)
  {
    forall i | 0 <= i < |es| && Covers(es[i], addr)
      ensures GetDevice(es, addr).Some?
    {
      GetDeviceIsTheCoveringOne(es, addr, i, i);
    }
    var k := LastAtOrBefore(es, addr);
    if k >= 0 && addr - es[k].base < es[k].len {
      assert Covers(es[k], addr);
    }
  }

  predicate AllClear(es: seq<Entry>, base: nat, len: nat) {
    forall i :: 0 <= i < |es| ==> !Overlaps(es[i], base, len)
  }

  /** Some device starts at or above the base. */
  predicate DeviceAbove(es: seq<Entry>, base: nat) {
    exists i :: 0 <= i < |es| && es[i].base >= base
  }

  lemma {:induction false} AcceptedIsClear(es: seq<Entry>, base: nat, len: nat)
    requires WellFormed(es) && base + len <= U64 && Accepts(es, base, len)
    ensures AllClear(es, base, len)
  {
    assert LastAddress(base, len) == base + len - 1;
    NoDeviceMeansNoCover(es, base);
    var k := LastAtOrBefore(es, base + len - 1);
    forall i | 0 <= i < |es|
      ensures !Overlaps(es[i], base, len)
    {
      assert !Covers(es[i], base) && EndsBefore(es, i, k);
    }
  }

  lemma {:induction false} ClearIsAccepted(es: seq<Entry>, base: nat, len: nat)
    requires WellFormed(es) && base + len <= U64 && len > 0 && AllClear(es, base, len)
    ensures Accepts(es, base, len)
  {
    assert LastAddress(base, len) == base + len - 1;
    NoDeviceMeansNoCover(es, base);
    forall i | 0 <= i < |es|
      ensures !Covers(es[i], base)
    {
      assert !Overlaps(es[i], base, len);
    }
  }

  /** Without wrap-around the checks accept exactly the non-empty ranges that overlap nothing. */
  lemma {:induction false} AcceptsIff(es: seq<Entry>, base: nat, len: nat)
    requires WellFormed(es) && base + len <= U64
    ensures Accepts(es, base, len) <==> len > 0 && AllClear(es, base, len)
  {
    if Accepts(es, base, len) {
      AcceptedIsClear(es, base, len);
    }
    if len > 0 && AllClear(es, base, len) {
      ClearIsAccepted(es, base, len);
    }
  }

  /** A range that wraps around is accepted whenever no device covers its base, whatever lies above. */
  lemma {:induction false} WrappedAccepts(es: seq<Entry>, base: nat, len: nat)
    requires base < U64 && len < U64 && base + len > U64
    ensures Accepts(es, base, len) <==> GetDevice(es, base).None?
  {
    assert LastAddress(base, len) == base + len - 1 - U64 by {
      assert (base + len - 1 - U64) % U64 == (base + len - 1) % U64;
    }
  }

  /**
   * For 64-bit arguments the verdict of `insert` is right if and only if the
   * range does not wrap around, or a device covers the base, or no device
   * starts at or above it.
   */
  lemma {:induction false} VerdictRightIff(es: seq<Entry>, base: nat, len: nat)
    requires WellFormed(es) && base < U64 && 0 < len < U64
    ensures (Accepts(es, base, len) <==> AllClear(es, base, len))
       <==> base + len <= U64 || GetDevice(es, base).Some? || !DeviceAbove(es, base)
  {
    if base + len <= U64 {
      AcceptsIff(es, base, len);
    } else {
      WrappedAccepts(es, base, len);
      NoDeviceMeansNoCover(es, base);
      if GetDevice(es, base).Some? {
        var i :| 0 <= i < |es| && Covers(es[i], base);
        assert Overlaps(es[i], base, len);
      } else if DeviceAbove(es, base) {
        var i :| 0 <= i < |es| && es[i].base >= base;
        assert Overlaps(es[i], base, len);
      } else {
        forall i | 0 <= i < |es|
          ensures !Overlaps(es[i], base, len)
        {
          assert !Covers(es[i], base) && es[i].base < base;
        }
      }
    }
  }

  /** An overlapping insertion that succeeds: 40 bytes from 2^64 - 32 over a device at 2^64 - 16. */
  lemma {:induction false} WrappedOverlapExample()
    ensures var es := [Entry(0xffff_ffff_ffff_fff0, 8, 0)];
            WellFormed(es) && Accepts(es, 0xffff_ffff_ffff_ffe0, 40) && !AllClear(es, 0xffff_ffff_ffff_ffe0, 40)
  {
    var es := [Entry(U64 - 16, 8, 0)];
    WrappedAccepts(es, U64 - 32, 40);
    assert Overlaps(es[0], U64 - 32, 40);
  }

  /** Accepted keys are new, so the map insertion never replaces: the last Overlap of `insert` is unreachable. */
  lemma {:induction false} KeyIsNew(es: seq<Entry>, base: nat, len: nat, i: nat)
    requires Keyed(es) && Accepts(es, base, len) && i < |es|
    ensures es[i].base != base
  {
    assert KeyOrder(es, i, LastAtOrBefore(es, base));
  }

  lemma {:induction false} InsertKeepsKeys(es: seq<Entry>, e: Entry)
    requires Keyed(es) && Accepts(es, e.base, e.len)
    ensures Keyed(Inserted(es, e))
  {
    var r, k := Inserted(es, e), LastAtOrBefore(es, e.base) + 1;
    forall i, j
      ensures KeyOrder(r, i, j)
    {
      if 0 <= i < j < |r| {
        InsertedAt(es, e, i);
        InsertedAt(es, e, j);
        assert KeyOrder(es, OldPosition(k, i), OldPosition(k, j)) && KeyOrder(es, OldPosition(k, i), k - 1);
        if i < k {
          KeyIsNew(es, e.base, e.len, i);
        }
      }
    }
    forall i | 0 <= i < |r|
      ensures r[i].len > 0
    {
      InsertedAt(es, e, i);
    }
  }

  lemma {:induction false} OldEndsBeforeNew(es: seq<Entry>, e: Entry, i: nat)
    requires WellFormed(es) && AllClear(es, e.base, e.len) && e.len > 0 && i <= LastAtOrBefore(es, e.base)
    ensures es[i].base + es[i].len <= e.base
  {
    assert EndsBefore(es, i, LastAtOrBefore(es, e.base)) && !Overlaps(es[i], e.base, e.len);
  }

  lemma {:induction false} NewEndsBeforeOld(es: seq<Entry>, e: Entry, j: nat)
    requires WellFormed(es) && AllClear(es, e.base, e.len) && LastAtOrBefore(es, e.base) < j < |es|
    ensures e.base + e.len <= es[j].base
  {
    assert !Overlaps(es[j], e.base, e.len);
  }

  lemma {:induction false} InsertedEndsBefore(es: seq<Entry>, e: Entry, i: nat, j: nat)
    requires WellFormed(es) && AllClear(es, e.base, e.len) && e.len > 0 && i < j <= |es|
    ensures EndsBefore(Inserted(es, e), i, j)
  {
    var k := LastAtOrBefore(es, e.base) + 1;
    InsertedAt(es, e, i);
    InsertedAt(es, e, j);
    if j == k {
      OldEndsBeforeNew(es, e, i);
    } else if i == k {
      NewEndsBeforeOld(es, e, j - 1);
    } else {
      assert EndsBefore(es, OldPosition(k, i), OldPosition(k, j));
    }
  }

  /** An accepted range that does not wrap around keeps all ranges disjoint. */
  lemma {:induction false} InsertKeepsRanges(es: seq<Entry>, e: Entry)
    requires WellFormed(es) && e.base + e.len <= U64 && Accepts(es, e.base, e.len)
    ensures WellFormed(Inserted(es, e))
  {
    AcceptsIff(es, e.base, e.len);
    var r := Inserted(es, e);
    forall i, j
      ensures EndsBefore(r, i, j)
    {
      if 0 <= i < j < |r| {
        InsertedEndsBefore(es, e, i, j);
      }
    }
    forall i | 0 <= i < |r|
      ensures Valid(r[i])
    {
      InsertedAt(es, e, i);
    }
  }

  lemma {:induction false} OldEntryStillRoutes(es: seq<Entry>, r: seq<Entry>, addr: nat, i: nat, at: nat)
    requires WellFormed(es) && WellFormed(r) && i < |es| && at < |r| && r[at] == es[i] && Covers(es[i], addr)
    ensures GetDevice(r, addr) == GetDevice(es, addr)
  {
    GetDeviceIsTheCoveringOne(es, addr, i, i);
    GetDeviceIsTheCoveringOne(r, addr, at, at);
  }

  lemma {:induction false} HoleStaysHole(es: seq<Entry>, e: Entry, addr: nat)
    requires WellFormed(es) && WellFormed(Inserted(es, e))
    requires !Covers(e, addr) && forall i :: 0 <= i < |es| ==> !Covers(es[i], addr)
    ensures GetDevice(Inserted(es, e), addr).None?
  {
    var r := Inserted(es, e);
    forall i | 0 <= i < |r|
      ensures !Covers(r[i], addr)
    {
      InsertedAt(es, e, i);
    }
    NoDeviceMeansNoCover(r, addr);
  }

  /** After an insertion every address is served by the new device inside its range and as before outside. */
  lemma {:induction false} InsertRoutes(es: seq<Entry>, e: Entry, addr: nat)
    requires WellFormed(es) && e.base + e.len <= U64 && Accepts(es, e.base, e.len)
    ensures GetDevice(Inserted(es, e), addr)
         == if Covers(e, addr) then Some((addr - e.base, e.device)) else GetDevice(es, addr)
  {
    InsertKeepsRanges(es, e);
    NoDeviceMeansNoCover(es, addr);
    var k := LastAtOrBefore(es, e.base) + 1;
    if Covers(e, addr) {
      InsertedAt(es, e, k);
      GetDeviceIsTheCoveringOne(Inserted(es, e), addr, k, k);
    } else if i: nat :| i < |es| && Covers(es[i], addr) {
      var at := if i < k then i else i + 1;
      InsertedAt(es, e, at);
      OldEntryStillRoutes(es, Inserted(es, e), addr, i, at);
    } else {
      HoleStaysHole(es, e, addr);
    }
  }

  // ----- the code -----

  /** Where the map puts a new key, and whether the key is there already. */
  method FindPlace(es: seq<Entry>, e: Entry) returns (k: nat, replaced: bool)
    requires Keyed(es) && Accepts(es, e.base, e.len)
    ensures k == LastAtOrBefore(es, e.base) + 1 && !replaced
  {
    k, replaced := 0, false;
    while k < |es| && es[k].base <= e.base
      invariant 0 <= k <= LastAtOrBefore(es, e.base) + 1
      invariant !replaced
    {
      KeyIsNew(es, e.base, e.len, k);
      replaced := replaced || es[k].base == e.base;
      k := k + 1;
    }
    assert KeyOrder(es, k, LastAtOrBefore(es, e.base));
  }

  class Bus {
    var devices: seq<Entry>

    constructor ()
      ensures devices == []
    {
      devices := [];
    }

    /** first_before: from the highest base down. */
    method FirstBefore(addr: nat) returns (found: Option<Entry>)
      ensures var k := LastAtOrBefore(devices, addr);
              found == if k < 0 then None else Some(devices[k])
    {
      var i := |devices|;
      while i > 0
        invariant 0 <= i <= |devices|
        invariant LastAmong(devices, addr, i) == LastAtOrBefore(devices, addr)
      {
        i := i - 1;
        if devices[i].base <= addr {
          return Some(devices[i]);
        }
      }
      return None;
    }

    method Lookup(addr: nat) returns (found: Option<(nat, nat)>)
      ensures found == GetDevice(devices, addr)
    {
      var before := FirstBefore(addr);
      if before.Some? {
        var offset := addr - before.value.base;
        if offset < before.value.len {
          return Some((offset, before.value.device));
        }
      }
      return None;
    }

    /**
     * insert. For a range that does not wrap around on a bus of disjoint ranges
     * it is refused exactly when empty or overlapping; a refusal changes nothing.
     */
    method Insert(device: nat, base: nat, len: nat) returns (ok: bool)
      requires Keyed(devices)
      modifies this
      ensures Keyed(devices)
      ensures ok <==> Accepts(old(devices), base, len)
      ensures devices == if ok then Inserted(old(devices), Entry(base, len, device)) else old(devices)
      ensures old(WellFormed(devices)) && base + len <= U64
          ==> WellFormed(devices) && (ok <==> len > 0 && AllClear(old(devices), base, len))
    {
      if WellFormed(devices) && base + len <= U64 {
        AcceptsIff(devices, base, len);
      }
      if len == 0 {
        return false;
      }
      var at := Lookup(base);
      if at.Some? {
        return false;
      }
      var before := FirstBefore((base + len - 1) % U64);
      if before.Some? && before.value.base >= base {
        return false;
      }
      var replaced := AddToMap(Entry(base, len, device));
      return !replaced;
    }

    /** The map's own insertion, for a key that the checks have let through. */
    method AddToMap(e: Entry) returns (replaced: bool)
      requires Keyed(devices) && Accepts(devices, e.base, e.len)
      modifies this
      ensures !replaced && devices == Inserted(old(devices), e) && Keyed(devices)
      ensures old(WellFormed(devices)) && e.base + e.len <= U64 ==> WellFormed(devices)
    {
      InsertKeepsKeys(devices, e);
      if WellFormed(devices) && e.base + e.len <= U64 {
        InsertKeepsRanges(devices, e);
      }
      var k;
      k, replaced := FindPlace(devices, e);
      devices := Spliced(devices, k, e);
    }
  }
}

/**
 * What a disk with an in-memory overlay should return, what the read shortcut
 * of src/disk/memory.rs returns, and exactly when the two agree.
 */
module OverlaySpec {
  import opened Machine

  const SECTOR: nat := 512

  /** The image file and the offset of sector 0 in it. */
  datatype Disk = Disk(image: seq<byte>, offset: nat)

  function SectorCount(d: Disk): nat {
    if d.offset <= |d.image| then (|d.image| - d.offset) / SECTOR else 0
  }

  /** Sector s of a byte sequence. */
  function SectorOf(mem: seq<byte>, s: nat): seq<byte>
    requires (s + 1) * SECTOR <= |mem|
  {
    mem[s * SECTOR..(s + 1) * SECTOR]
  }

  function BaseSector(d: Disk, s: nat): seq<byte>
    requires s < SectorCount(d)
  {
    SectorOf(d.image[d.offset..], s)
  }

  /** What the overlay holds: the written sectors and their data. */
  type Lookup = nat -> Option<seq<byte>>

  /** An overlay without data. */
  function NoOverlay(): Lookup {
    (s: nat) => None
  }

  /** The last data written to the sector, else the base image. */
  function Fetch(d: Disk, look: Lookup, s: nat): Option<seq<byte>> {
    if look(s).Some? then look(s)
    else if s < SectorCount(d) then Some(BaseSector(d, s))
    else None
  }

  /** Sector by sector, failing when one sector is neither written nor on the disk. */
  function ReadSectors(d: Disk, look: Lookup, start: nat, count: nat): Option<seq<seq<byte>>>
    decreases count
  {
    if count == 0 then Some([])
    else
      var front := ReadSectors(d, look, start, count - 1);
      var last := Fetch(d, look, start + count - 1);
      if front.Some? && last.Some? then Some(front.value + [last.value]) else None
  }

  /** A read of the base image alone; the start must not lie behind its end. */
  function ReadBase(d: Disk, start: nat, count: nat): Option<seq<seq<byte>>> {
    if count == 0 then (if start <= SectorCount(d) then Some([]) else None)
    else ReadSectors(d, NoOverlay(), start, count)
  }

  /** The shortcut test of MemoryOverlay::read_sectors: sectors 0..count, not start..start+count. */
  predicate ShortcutTaken(look: Lookup, count: nat) {
    forall i :: 0 <= i < count ==> look(i).None?
  }

  function ReadAsCoded(d: Disk, look: Lookup, start: nat, count: nat): Option<seq<seq<byte>>> {
    if ShortcutTaken(look, count) then ReadBase(d, start, count) else ReadSectors(d, look, start, count)
  }

  /** With the index the test was meant to have. */
  function ReadWithIntendedTest(d: Disk, look: Lookup, start: nat, count: nat): Option<seq<seq<byte>>> {
    if forall s :: start <= s < start + count ==> look(s).None? then ReadBase(d, start, count)
    else ReadSectors(d, look, start, count)
  }

  /** A read succeeds iff every sector can be fetched, and returns them in order. */
  lemma {:induction false} ReadSectorsIs(d: Disk, look: Lookup, start: nat, count: nat)
    ensures ReadSectors(d, look, start, count).Some? <==>
              forall s :: start <= s < start + count ==> Fetch(d, look, s).Some?
    ensures ReadSectors(d, look, start, count).Some? ==>
              && |ReadSectors(d, look, start, count).value| == count
              && forall s :: start <= s < start + count ==>
                   Fetch(d, look, s) == Some(ReadSectors(d, look, start, count).value[s - start])
    decreases count
  {
    if count > 0 {
      ReadSectorsIs(d, look, start, count - 1);
    }
  }

  lemma {:induction false} SameFetches(d: Disk, look: Lookup, look': Lookup, start: nat, count: nat)
    requires forall s :: start <= s < start + count ==> Fetch(d, look, s) == Fetch(d, look', s)
    ensures ReadSectors(d, look, start, count) == ReadSectors(d, look', start, count)
    decreases count
  {
    if count > 0 {
      SameFetches(d, look, look', start, count - 1);
    }
  }

  /**
   * With the intended index the shortcut changes no result, except that an
   * empty read fails when it starts behind the end of the image.
   */
  lemma {:induction false} IntendedTestIsCorrect(d: Disk, look: Lookup, start: nat, count: nat)
    ensures ReadWithIntendedTest(d, look, start, count) == ReadSectors(d, look, start, count)
       <==> count > 0 || start <= SectorCount(d)
  {
    if forall s :: start <= s < start + count ==> look(s).None? {
      SameFetches(d, look, NoOverlay(), start, count);
    }
  }

  // ----- exactly when the read as coded is right -----

  /** `look` has data of sector size for exactly the sectors in `written`. */
  ghost predicate HoldsExactly(look: Lookup, written: nat -> bool) {
    forall s: nat :: look(s).Some? == written(s) && (look(s).Some? ==> |look(s).value| == SECTOR)
  }

  predicate NoneWritten(written: nat -> bool, start: nat, count: nat) {
    forall s :: start <= s < start + count ==> !written(s)
  }

  /** Some requested sector is neither written nor on the disk: the read must fail either way. */
  predicate OutOfReach(d: Disk, written: nat -> bool, start: nat, count: nat) {
    exists s :: start <= s < start + count && !written(s) && s >= SectorCount(d)
  }

  /**
   * The condition, on the written sectors and the request alone: one of the
   * sectors 0..count is written (so the shortcut is not taken), or none of the
   * requested ones is, or the request reaches past the disk. An empty request
   * must not start behind the disk's end.
   */
  predicate ReadIsSafe(d: Disk, written: nat -> bool, start: nat, count: nat) {
    if count == 0 then start <= SectorCount(d)
    else !NoneWritten(written, 0, count) || NoneWritten(written, start, count) || OutOfReach(d, written, start, count)
  }

  lemma {:induction false} SafeIsCorrect(d: Disk, look: Lookup, written: nat -> bool, start: nat, count: nat)
    requires HoldsExactly(look, written) && ReadIsSafe(d, written, start, count)
    ensures ReadAsCoded(d, look, start, count) == ReadSectors(d, look, start, count)
  {
    if count > 0 && ShortcutTaken(look, count) {
      if NoneWritten(written, start, count) {
        SameFetches(d, look, NoOverlay(), start, count);
      } else {
        assert NoneWritten(written, 0, count) by {
          assert forall s :: 0 <= s < count ==> look(s).None? && look(s).Some? == written(s);
        }
        var s :| start <= s < start + count && !written(s) && s >= SectorCount(d);
        assert Fetch(d, look, s).None? && Fetch(d, NoOverlay(), s).None?;
        ReadSectorsIs(d, look, start, count);
        ReadSectorsIs(d, NoOverlay(), start, count);
      }
    }
  }

  /** Sector data that differs from the base image. */
  function OtherData(d: Disk, s: nat): (r: seq<byte>)
    ensures |r| == SECTOR
    ensures s < SectorCount(d) ==> r != BaseSector(d, s)
  {
    var fill: byte := if s < SectorCount(d) && BaseSector(d, s)[0] == 0 then 1 else 0;
    var r := seq(SECTOR, (i: nat) => fill);
    assert r[0] == fill;
    r
  }

  /** Overlay contents for the given sectors that no base sector equals. */
  function Differing(d: Disk, written: nat -> bool): Lookup {
    (s: nat) => if written(s) then Some(OtherData(d, s)) else None
  }

  lemma {:induction false} UnsafeIsWrong(d: Disk, written: nat -> bool, start: nat, count: nat)
    requires !ReadIsSafe(d, written, start, count)
    ensures HoldsExactly(Differing(d, written), written)
    ensures ReadAsCoded(d, Differing(d, written), start, count) != ReadSectors(d, Differing(d, written), start, count)
  {
    var look := Differing(d, written);
    assert ShortcutTaken(look, count);
    ReadSectorsIs(d, look, start, count);
    ReadSectorsIs(d, NoOverlay(), start, count);
    if count > 0 {
      var s :| start <= s < start + count && written(s);
      assert Fetch(d, look, s) == Some(OtherData(d, s));
      assert Fetch(d, NoOverlay(), s) == if s < SectorCount(d) then Some(BaseSector(d, s)) else None;
      forall r | start <= r < start + count
        ensures Fetch(d, look, r).Some?
      {
      }
    }
  }

  /**
   * The read as coded returns the right sectors whatever the overlay holds,
   * if and only if the request is safe.
   */
  lemma {:induction false} ReadCorrectIff(d: Disk, written: nat -> bool, start: nat, count: nat)
    ensures (forall look: Lookup :: HoldsExactly(look, written) ==>
               ReadAsCoded(d, look, start, count) == ReadSectors(d, look, start, count))
       <==> ReadIsSafe(d, written, start, count)
  {
    if ReadIsSafe(d, written, start, count) {
      forall look: Lookup | HoldsExactly(look, written)
        ensures ReadAsCoded(d, look, start, count) == ReadSectors(d, look, start, count)
      {
        SafeIsCorrect(d, look, written, start, count);
      }
    } else {
      UnsafeIsWrong(d, written, start, count);
    }
  }

  // ----- the history of writes -----

  /** A successful write request; only whole sectors of its data count. */
  datatype Write = Write(start: nat, data: seq<byte>)

  function Sectors(w: Write): nat {
    |w.data| / SECTOR
  }

  predicate Covers(w: Write, s: nat) {
    w.start <= s < w.start + Sectors(w)
  }

  function Chunk(w: Write, s: nat): seq<byte>
    requires Covers(w, s)
  {
    SectorOf(w.data, s - w.start)
  }

  /** The data of the last write that covers the sector. */
  function LastWrite(ws: seq<Write>, s: nat): Option<seq<byte>>
    decreases |ws|
  {
    if ws == [] then None
    else if Covers(ws[|ws| - 1], s) then Some(Chunk(ws[|ws| - 1], s))
    else LastWrite(ws[..|ws| - 1], s)
  }

  /** The overlay after the given writes, and which sectors it holds. */
  function HistoryLookup(ws: seq<Write>): Lookup {
    (s: nat) => LastWrite(ws, s)
  }

  function WrittenSectors(ws: seq<Write>): nat -> bool {
    (s: nat) => LastWrite(ws, s).Some?
  }

  /** LastWrite finds the newest covering write, and None only if there is none. */
  lemma {:induction false} LastWriteIsNewest(ws: seq<Write>, s: nat) returns (i: int)
    ensures -1 <= i < |ws|
    ensures forall j :: i < j < |ws| ==> !Covers(ws[j], s)
    ensures if i >= 0 then Covers(ws[i], s) && LastWrite(ws, s) == Some(Chunk(ws[i], s)) else LastWrite(ws, s).None?
    decreases |ws|
  {
    if ws == [] {
      i := -1;
    } else if Covers(ws[|ws| - 1], s) {
      i := |ws| - 1;
    } else {
      i := LastWriteIsNewest(ws[..|ws| - 1], s);
    }
  }

  /** The sector was written or lies on the disk. */
  predicate Reachable(d: Disk, ws: seq<Write>, s: nat) {
    LastWrite(ws, s).Some? || s < SectorCount(d)
  }

  /** The last data written to the sector, else the base image. */
  function Newest(d: Disk, ws: seq<Write>, s: nat): seq<byte>
    requires Reachable(d, ws, s)
  {
    if LastWrite(ws, s).Some? then LastWrite(ws, s).value else BaseSector(d, s)
  }

  /** After any writes, a safe read returns for each sector the last data written, else the base image. */
  lemma {:induction false} SafeReadAfterWrites(d: Disk, ws: seq<Write>, start: nat, count: nat)
    requires ReadIsSafe(d, WrittenSectors(ws), start, count)
    ensures var got := ReadAsCoded(d, HistoryLookup(ws), start, count);
            (got.Some? <==> forall s :: start <= s < start + count ==> Reachable(d, ws, s)) &&
            (got.Some? ==> |got.value| == count && forall s :: start <= s < start + count ==>
                             Reachable(d, ws, s) && got.value[s - start] == Newest(d, ws, s))
  {
    var look := HistoryLookup(ws);
    var written := WrittenSectors(ws);
    forall s: nat
      ensures look(s).Some? == written(s) && (look(s).Some? ==> |look(s).value| == SECTOR)
    {
      var i := LastWriteIsNewest(ws, s);
    }
    assert HoldsExactly(look, written);
    SafeIsCorrect(d, look, written, start, count);
    ReadSectorsIs(d, look, start, count);
    assert forall s :: start <= s < start + count ==> Fetch(d, look, s).Some? == Reachable(d, ws, s);
    if ReadSectors(d, look, start, count).Some? {
      forall s | start <= s < start + count
        ensures Reachable(d, ws, s)
        ensures ReadSectors(d, look, start, count).value[s - start] == Newest(d, ws, s)
      {
        assert Fetch(d, look, s).Some?;
      }
    } else {
      var s :| start <= s < start + count && Fetch(d, look, s).None?;
      assert !Reachable(d, ws, s);
    }
  }

  /** The shortcut at work: a sector written once and read alone comes back as the base image. */
  lemma {:induction false} StaleReadExample(d: Disk, data: seq<byte>)
    requires SectorCount(d) > 5 && |data| == 512 && data != BaseSector(d, 5)
    ensures var ws := [Write(5, data)];
            && Newest(d, ws, 5) == data
            && ReadAsCoded(d, HistoryLookup(ws), 5, 1) == Some([BaseSector(d, 5)])
  {
    var ws := [Write(5, data)];
    assert ws[..0] == [] && LastWrite(ws, 0) == None;
    assert ShortcutTaken(HistoryLookup(ws), 1);
    assert SectorOf(data, 0) == data;
    assert ReadSectors(d, NoOverlay(), 5, 0) == Some([]);
    assert Fetch(d, NoOverlay(), 5) == Some(BaseSector(d, 5));
    assert [] + [BaseSector(d, 5)] == [BaseSector(d, 5)];
    assert ReadSectors(d, NoOverlay(), 5, 1) == Some([BaseSector(d, 5)]);
  }
}

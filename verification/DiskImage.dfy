/**
 * MemoryOverlay (src/disk/memory.rs) and RawDiskImage (src/disk/raw.rs) over
 * files with a cursor. Buffers are filled in place.
 */
module DiskImage {
  import opened Machine
  import opened BitSets
  import opened OverlaySpec

  datatype Error =
    | ReadOnly | BadSectorOffset | DiskRead | DiskWrite | NotOpen
    | DiskOpen | DiskOpenTooShort | MemoryOverlayCreate

  datatype Outcome = Ok | Err(error: Error)

  datatype OpenType = OpenReadOnly | OpenReadWrite | OpenOverlay

  // ----- files -----

  /** A write at `pos`, filling a gap behind the end with zeros. */
  function WriteAt(contents: seq<byte>, pos: nat, bytes: seq<byte>): (r: seq<byte>)
    ensures bytes == [] ==> r == contents
    ensures bytes != [] ==> |r| == Max(|contents|, pos + |bytes|) && r[pos..pos + |bytes|] == bytes
    ensures forall i :: 0 <= i < |contents| && !(pos <= i < pos + |bytes|) ==> i < |r| && r[i] == contents[i]
  {
    if bytes == [] then contents else
    var padded := if |contents| < pos then contents + Zeros(pos - |contents|) else contents;
    padded[..pos] + bytes + (if pos + |bytes| < |padded| then padded[pos + |bytes|..] else [])
  }

  /** An open file; a write through a handle that was opened for reading fails. */
  class File {
    const writable: bool
    var contents: seq<byte>
    var pos: nat

    constructor (contents: seq<byte>, writable: bool)
      ensures this.contents == contents && pos == 0 && this.writable == writable
    {
      this.contents, pos, this.writable := contents, 0, writable;
    }

    method Seek(pos: nat)
      modifies this`pos
      ensures this.pos == pos
    {
      this.pos := pos;
    }

    method WriteAll(bytes: seq<byte>) returns (ok: bool)
      modifies this
      ensures ok == (writable || bytes == [])
      ensures contents == if ok then WriteAt(old(contents), old(pos), bytes) else old(contents)
      ensures pos == if ok then old(pos) + |bytes| else old(pos)
    {
      ok := writable || bytes == [];
      if ok {
        contents := WriteAt(contents, pos, bytes);
        pos := pos + |bytes|;
      }
    }

    /** read_exact into buffer[lo..lo+n]; a short file fills what it can and fails. */
    method ReadExact(buffer: array<byte>, lo: nat, n: nat) returns (ok: bool)
      requires lo + n <= buffer.Length
      modifies this`pos, buffer
      ensures ok <==> old(pos) + n <= |contents| || n == 0
      ensures ok ==> n > 0 ==> buffer[lo..lo + n] == contents[old(pos)..old(pos) + n]
      ensures buffer[..lo] == old(buffer[..lo]) && buffer[lo + n..] == old(buffer[lo + n..])
    {
      var start := pos;
      for i := 0 to n
        invariant pos == start + i && (i > 0 ==> start + i <= |contents|)
        invariant forall k :: 0 <= k < buffer.Length && !(lo <= k < lo + n) ==> buffer[k] == old(buffer[k])
        invariant forall k :: lo <= k < lo + i ==> buffer[k] == contents[start + k - lo]
      {
        if pos >= |contents| {
          return false;
        }
        buffer[lo + i] := contents[pos];
        pos := pos + 1;
      }
      ok := true;
    }
  }

  // ----- the overlay -----

  lemma {:induction false} SliceOfSlice(a: seq<byte>, lo: nat, hi: nat, i: nat, j: nat)
    requires lo <= hi <= |a| && i <= j <= hi - lo
    ensures a[lo..hi][i..j] == a[lo + i..lo + j]
  {
    var x, y := a[lo..hi][i..j], a[lo + i..lo + j];
    assert |x| == |y| && forall k :: 0 <= k < |x| ==> x[k] == y[k];
  }

  /** A write of whole sectors replaces exactly those sectors. */
  lemma {:induction false} WriteAtSector(contents: seq<byte>, start: nat, bytes: seq<byte>, count: nat, s: nat)
    requires |bytes| == count * SECTOR
    ensures var r := WriteAt(contents, start * SECTOR, bytes);
            && (start <= s < start + count ==> (s + 1) * SECTOR <= |r| && SectorOf(r, s) == SectorOf(bytes, s - start))
            && (!(start <= s < start + count) && (s + 1) * SECTOR <= |contents| ==>
                  (s + 1) * SECTOR <= |r| && SectorOf(r, s) == SectorOf(contents, s))
  {
    var r := WriteAt(contents, start * SECTOR, bytes);
    if start <= s < start + count {
      SliceOfSlice(r, start * SECTOR, start * SECTOR + |bytes|, (s - start) * SECTOR, (s - start + 1) * SECTOR);
    } else if (s + 1) * SECTOR <= |contents| {
      assert |r| >= |contents|;
    }
  }

  /** What a sector holds, given whether its bit is set. */
  ghost function StoredIn(contents: seq<byte>, s: nat, marked: bool): Option<seq<byte>> {
    if marked && (s + 1) * SECTOR <= |contents| then Some(SectorOf(contents, s)) else None
  }

  /** A sector that held its last data still does, one write later. */
  lemma {:induction false} StoredNow(
      contents: seq<byte>, history: seq<Write>, start: nat, buffer: seq<byte>, s: nat, before: bool)
    requires before ==> (s + 1) * SECTOR <= |contents|
    requires StoredIn(contents, s, before) == LastWrite(history, s)
    ensures var count := |buffer| / SECTOR;
            var after := WriteAt(contents, start * SECTOR, buffer[..count * SECTOR]);
            var now := before || start <= s < start + count;
            && (now ==> (s + 1) * SECTOR <= |after|)
            && StoredIn(after, s, now) == LastWrite(history + [Write(start, buffer)], s)
  {
    var count := |buffer| / SECTOR;
    WriteAtSector(contents, start, buffer[..count * SECTOR], count, s);
    assert (history + [Write(start, buffer)])[..|history|] == history;
    if Covers(Write(start, buffer), s) {
      assert SectorOf(buffer[..count * SECTOR], s - start) == SectorOf(buffer, s - start);
    }
  }

  class MemoryOverlay {
    const memory: File
    const written: BitSet
    ghost var history: seq<Write>

    ghost function Stored(s: nat): Option<seq<byte>>
      reads memory`contents, written
    {
      StoredIn(memory.contents, s, written.Contains(s))
    }

    /** The memory file and the bit set hold, for every sector, the last data written to it. */
    ghost predicate Valid()
      reads this, memory`contents, written
    {
      && memory.writable
      && (forall s: nat :: written.Contains(s) ==> (s + 1) * SECTOR <= |memory.contents|)
      && (forall s: nat :: Stored(s) == LastWrite(history, s))
    }

    ghost function Look(): Lookup
      reads this
    {
      HistoryLookup(history)
    }

    constructor ()
      ensures Valid() && history == [] && fresh(memory) && fresh(written)
    {
      memory := new File([], true);
      written := new BitSet();
      history := [];
    }

    /** The loop that sets the bits of the written sectors. */
    method MarkWritten(start: nat, count: nat)
      modifies written
      ensures forall s: nat :: written.Contains(s) <==> old(written.Contains(s)) || start <= s < start + count
    {
      for n := 0 to count
        invariant forall s: nat :: written.Contains(s) <==> old(written.Contains(s)) || start <= s < start + n
      {
        written.Insert(start + n);
      }
    }

    method WriteSectors(start: nat, buffer: seq<byte>)
      requires Valid()
      modifies this, memory, written
      ensures Valid() && history == old(history) + [Write(start, buffer)]
    {
      var count := |buffer| / SECTOR;
      var len := count * SECTOR;
      memory.Seek(start * SECTOR);
      var _ := memory.WriteAll(buffer[..len]);
      MarkWritten(start, count);
      history := history + [Write(start, buffer)];
      forall s: nat
        ensures written.Contains(s) ==> (s + 1) * SECTOR <= |memory.contents|
        ensures Stored(s) == LastWrite(history, s)
      {
        assert old(Stored(s)) == LastWrite(old(history), s);
        StoredNow(old(memory.contents), old(history), start, buffer, s, old(written.Contains(s)));
      }
    }

    /** read_single_sector, for a sector that was written. */
    method ReadSingleSector(sector: nat, buffer: array<byte>, lo: nat)
      requires Valid() && written.Contains(sector) && lo + SECTOR <= buffer.Length
      modifies memory`pos, buffer
      ensures Some(buffer[lo..lo + SECTOR]) == LastWrite(history, sector)
      ensures buffer[..lo] == old(buffer[..lo]) && buffer[lo + SECTOR..] == old(buffer[lo + SECTOR..])
    {
      memory.Seek(sector * SECTOR);
      var ok := memory.ReadExact(buffer, lo, SECTOR);
      assert ok && Stored(sector) == LastWrite(history, sector);
    }

    /** The shortcut test: no bit is set among the first `count` indices. */
    method NoneOfFirst(count: nat) returns (none: bool)
      requires Valid()
      ensures none == ShortcutTaken(Look(), count)
    {
      for i := 0 to count
        invariant forall j :: 0 <= j < i ==> Look()(j).None?
      {
        assert Stored(i) == LastWrite(history, i);
        var present := written.Get(i);
        if present {
          assert Look()(i).Some?;
          return false;
        }
      }
      none := true;
    }

    /** A sector that was not written comes from the disk. */
    method ReadFromDisk(disk: RawDiskImage, sector: nat, buffer: array<byte>, lo: nat) returns (r: Outcome)
      requires disk.Base() && disk.overlay == null && disk.file != null && lo + SECTOR <= buffer.Length
      requires LastWrite(history, sector).None?
      modifies disk`overlay, disk.file`pos, buffer
      ensures disk.overlay == null
      ensures r.Ok? <==> Fetch(disk.AsDisk(), Look(), sector).Some?
      ensures r.Ok? ==> Fetch(disk.AsDisk(), Look(), sector) == Some(buffer[lo..lo + SECTOR])
      ensures SameOutside(old(buffer[..]), buffer[..], lo, lo + SECTOR)
      decreases 1, 0
    {
      r := disk.ReadSectors(sector, buffer, lo, SECTOR);
      OneBaseSector(disk.AsDisk(), Look(), sector);
      if r.Ok? {
        assert ReadBase(disk.AsDisk(), sector, 1).value[0] == buffer[..][lo..lo + SECTOR];
      }
    }

    /** One round of the loop: the overlay's sector if it was written, else the disk's. */
    method ReadOne(disk: RawDiskImage, sector: nat, buffer: array<byte>, lo: nat) returns (r: Outcome)
      requires Valid() && disk.Base() && disk.overlay == null && disk.file != null && disk.file != memory
      requires lo + SECTOR <= buffer.Length
      modifies memory`pos, disk`overlay, disk.file`pos, buffer
      ensures disk.overlay == null
      ensures r.Ok? <==> Fetch(disk.AsDisk(), Look(), sector).Some?
      ensures r.Ok? ==> Fetch(disk.AsDisk(), Look(), sector) == Some(buffer[lo..lo + SECTOR])
      ensures SameOutside(old(buffer[..]), buffer[..], lo, lo + SECTOR)
      decreases 1, 1
    {
      assert Stored(sector) == LastWrite(history, sector);
      var present := written.Get(sector);
      if present {
        ReadSingleSector(sector, buffer, lo);
        r := Ok;
      } else {
        r := ReadFromDisk(disk, sector, buffer, lo);
      }
    }

    /** The sectors before sector n of the request are in place; this puts sector n after them. */
    method ReadNext(disk: RawDiskImage, start: nat, buffer: array<byte>, lo: nat, n: nat) returns (r: Outcome)
      requires Valid() && disk.Base() && disk.overlay == null && disk.file != null && disk.file != memory
      requires lo + (n + 1) * SECTOR <= buffer.Length
      requires HasRead(disk.AsDisk(), Look(), start, n, buffer[..], lo)
      modifies memory`pos, disk`overlay, disk.file`pos, buffer
      ensures disk.overlay == null
      ensures r.Ok? <==> Fetch(disk.AsDisk(), Look(), start + n).Some?
      ensures r.Ok? ==> HasRead(disk.AsDisk(), Look(), start, n + 1, buffer[..], lo)
      ensures SameOutside(old(buffer[..]), buffer[..], lo + n * SECTOR, lo + (n + 1) * SECTOR)
      decreases 1, 2
    {
      r := ReadOne(disk, start + n, buffer, lo + n * SECTOR);
      if r.Ok? {
        HasReadOneMore(disk.AsDisk(), Look(), start, n, old(buffer[..]), buffer[..], lo);
      }
    }

    /** The loop over the sectors of the request. */
    method ReadEach(disk: RawDiskImage, start: nat, buffer: array<byte>, lo: nat, count: nat) returns (r: Outcome)
      requires Valid() && disk.Base() && disk.overlay == null && disk.file != null && disk.file != memory
      requires lo + count * SECTOR <= buffer.Length
      modifies memory`pos, disk`overlay, disk.file`pos, buffer
      ensures disk.overlay == null
      ensures var want := OverlaySpec.ReadSectors(disk.AsDisk(), Look(), start, count);
              (r.Ok? <==> want.Some?) && (r.Ok? ==> Filled(buffer[..], lo, want.value))
      ensures SameOutside(old(buffer[..]), buffer[..], lo, lo + count * SECTOR)
      decreases 1, 3
    {
      ghost var d, look := disk.AsDisk(), Look();
      for n := 0 to count
        invariant disk.overlay == null
        invariant disk.AsDisk() == d && Look() == look && HasRead(d, look, start, n, buffer[..], lo)
        invariant SameOutside(old(buffer[..]), buffer[..], lo, lo + n * SECTOR)
      {
        ghost var before := buffer[..];
        r := ReadNext(disk, start, buffer, lo, n);
        Widen(old(buffer[..]), before, buffer[..], lo, lo + n * SECTOR, lo + (n + 1) * SECTOR, lo + count * SECTOR);
        if r.Err? {
          OneMissing(d, look, start, count, n);
          return;
        }
      }
      r := Ok;
    }

    /** read_sectors over a disk whose own overlay has been taken out. */
    method ReadSectors(disk: RawDiskImage, start: nat, buffer: array<byte>, lo: nat, len: nat) returns (r: Outcome)
      requires Valid() && disk.Base() && disk.overlay == null && disk.file != null && disk.file != memory
      requires lo + len <= buffer.Length
      modifies memory`pos, disk`overlay, disk.file`pos, buffer
      ensures disk.overlay == null
      ensures var want := ReadAsCoded(disk.AsDisk(), Look(), start, len / SECTOR);
              (r.Ok? <==> want.Some?) && (r.Ok? ==> Filled(buffer[..], lo, want.value))
      ensures SameOutside(old(buffer[..]), buffer[..], lo, lo + len / SECTOR * SECTOR)
      decreases 1, 4
    {
      var count := len / SECTOR;
      var none := NoneOfFirst(count);
      if none {
        r := disk.ReadSectors(start, buffer, lo, len);
      } else {
        r := ReadEach(disk, start, buffer, lo, count);
      }
    }
  }

  /** Sector k of the request lies at lo + k * 512. */
  ghost predicate Filled(buffer: seq<byte>, lo: nat, sectors: seq<seq<byte>>) {
    forall k :: 0 <= k < |sectors| ==>
      lo + (k + 1) * SECTOR <= |buffer| && buffer[lo + k * SECTOR..lo + (k + 1) * SECTOR] == sectors[k]
  }

  /** The first n sectors of the read are in the buffer. */
  ghost predicate HasRead(d: Disk, look: Lookup, start: nat, n: nat, buffer: seq<byte>, lo: nat) {
    var sectors := OverlaySpec.ReadSectors(d, look, start, n);
    sectors.Some? && Filled(buffer, lo, sectors.value)
  }

  ghost predicate SameOutside(a: seq<byte>, b: seq<byte>, lo: nat, hi: nat) {
    |a| == |b| && forall i :: 0 <= i < |a| && !(lo <= i < hi) ==> a[i] == b[i]
  }

  lemma {:induction false} Widen(a: seq<byte>, b: seq<byte>, c: seq<byte>, lo: nat, mid: nat, hi: nat, end: nat)
    requires lo <= mid <= hi <= end && SameOutside(a, b, lo, mid) && SameOutside(b, c, mid, hi)
    ensures SameOutside(a, c, lo, hi) && SameOutside(a, c, lo, end)
  {
  }

  lemma {:induction false} OneBaseSector(d: Disk, look: Lookup, s: nat)
    requires look(s).None?
    ensures ReadBase(d, s, 1).Some? <==> Fetch(d, look, s).Some?
    ensures ReadBase(d, s, 1).Some? ==> ReadBase(d, s, 1).value == [Fetch(d, look, s).value]
  {
    assert OverlaySpec.ReadSectors(d, NoOverlay(), s, 0) == Some([]);
  }

  lemma {:induction false} OneMissing(d: Disk, look: Lookup, start: nat, count: nat, n: nat)
    requires n < count && Fetch(d, look, start + n).None?
    ensures OverlaySpec.ReadSectors(d, look, start, count).None?
  {
    ReadSectorsIs(d, look, start, count);
  }

  lemma {:induction false} FilledOneMore(before: seq<byte>, after: seq<byte>, lo: nat, sectors: seq<seq<byte>>, last: seq<byte>)
    requires Filled(before, lo, sectors) && |before| == |after|
    requires lo + (|sectors| + 1) * SECTOR <= |after|
    requires SameOutside(before, after, lo + |sectors| * SECTOR, lo + (|sectors| + 1) * SECTOR)
    requires after[lo + |sectors| * SECTOR..lo + (|sectors| + 1) * SECTOR] == last
    ensures Filled(after, lo, sectors + [last])
  {
    forall k | 0 <= k < |sectors|
      ensures after[lo + k * SECTOR..lo + (k + 1) * SECTOR] == sectors[k]
    {
      assert after[lo + k * SECTOR..lo + (k + 1) * SECTOR] == before[lo + k * SECTOR..lo + (k + 1) * SECTOR];
    }
  }

  lemma {:induction false} HasReadOneMore(
      d: Disk, look: Lookup, start: nat, n: nat, before: seq<byte>, after: seq<byte>, lo: nat)
    requires HasRead(d, look, start, n, before, lo) && |before| == |after| && lo + (n + 1) * SECTOR <= |after|
    requires SameOutside(before, after, lo + n * SECTOR, lo + (n + 1) * SECTOR)
    requires Fetch(d, look, start + n) == Some(after[lo + n * SECTOR..lo + (n + 1) * SECTOR])
    ensures HasRead(d, look, start, n + 1, after, lo)
  {
    ReadSectorsIs(d, look, start, n);
    FilledOneMore(before, after, lo, OverlaySpec.ReadSectors(d, look, start, n).value, Fetch(d, look, start + n).value);
  }

  /** A base read succeeds iff its last sector is on the disk. */
  lemma {:induction false} BaseRead(d: Disk, start: nat, count: nat)
    requires d.offset <= |d.image|
    ensures ReadBase(d, start, count).Some? <==>
              start <= SectorCount(d) && (count == 0 || start * SECTOR + d.offset + count * SECTOR <= |d.image|)
  {
    ReadSectorsIs(d, NoOverlay(), start, count);
    if count > 0 {
      var none := NoOverlay();
      if start + count <= SectorCount(d) {
        forall s | start <= s < start + count
          ensures Fetch(d, none, s).Some?
        {
        }
      } else {
        assert Fetch(d, none, start + count - 1).None?;
      }
    }
  }

  lemma {:induction false} BaseSectorAt(d: Disk, s: nat)
    requires s < SectorCount(d)
    ensures d.offset + (s + 1) * SECTOR <= |d.image|
    ensures BaseSector(d, s) == d.image[d.offset + s * SECTOR..d.offset + (s + 1) * SECTOR]
  {
    SliceOfSlice(d.image, d.offset, |d.image|, s * SECTOR, (s + 1) * SECTOR);
  }

  /** A copy of image bytes holds the base sectors one after the other. */
  lemma {:induction false} CopiedSector(d: Disk, start: nat, count: nat, buffer: seq<byte>, lo: nat, k: nat)
    requires k < count && start + count <= SectorCount(d) && lo + count * SECTOR <= |buffer|
    requires start * SECTOR + d.offset + count * SECTOR <= |d.image|
    requires buffer[lo..lo + count * SECTOR]
          == d.image[start * SECTOR + d.offset..start * SECTOR + d.offset + count * SECTOR]
    ensures buffer[lo + k * SECTOR..lo + (k + 1) * SECTOR] == BaseSector(d, start + k)
  {
    var from := start * SECTOR + d.offset;
    SliceOfSlice(buffer, lo, lo + count * SECTOR, k * SECTOR, (k + 1) * SECTOR);
    SliceOfSlice(d.image, from, from + count * SECTOR, k * SECTOR, (k + 1) * SECTOR);
    BaseSectorAt(d, start + k);
  }

  /** The bytes of the image at the start sector are the sectors of the read. */
  lemma {:induction false} BaseFilled(d: Disk, start: nat, count: nat, buffer: seq<byte>, lo: nat)
    requires d.offset <= |d.image| && ReadBase(d, start, count).Some?
    requires lo + count * SECTOR <= |buffer|
    requires count > 0 ==> start * SECTOR + d.offset + count * SECTOR <= |d.image|
    requires count > 0 ==> buffer[lo..lo + count * SECTOR]
                           == d.image[start * SECTOR + d.offset..start * SECTOR + d.offset + count * SECTOR]
    ensures Filled(buffer, lo, ReadBase(d, start, count).value)
  {
    if count > 0 {
      var none := NoOverlay();
      ReadSectorsIs(d, none, start, count);
      var sectors := ReadBase(d, start, count).value;
      forall k | 0 <= k < count
        ensures buffer[lo + k * SECTOR..lo + (k + 1) * SECTOR] == sectors[k]
      {
        CopiedSector(d, start, count, buffer, lo, k);
        assert Fetch(d, none, start + k) == Some(sectors[start + k - start]);
      }
    }
  }

  /** A write of whole sectors that starts on the disk: the new size, and the sectors read back. */
  lemma {:induction false} BaseWritten(contents: seq<byte>, offset: nat, start: nat, bytes: seq<byte>, count: nat)
    requires offset <= |contents| && start <= SectorCount(Disk(contents, offset)) && |bytes| == count * SECTOR
    ensures var d := Disk(WriteAt(contents, start * SECTOR + offset, bytes), offset);
            && offset <= |d.image|
            && SectorCount(d) == Max(SectorCount(Disk(contents, offset)), start + count)
            && ReadsBack(d, start, bytes, count)
  {
    var d := Disk(WriteAt(contents, start * SECTOR + offset, bytes), offset);
    BaseRead(d, start, count);
    ReadSectorsIs(d, NoOverlay(), start, count);
    BaseFilled(d, start, count, bytes, 0);
  }

  /** A read of the base image gives the sectors of `bytes`. */
  ghost predicate ReadsBack(d: Disk, start: nat, bytes: seq<byte>, count: nat) {
    var got := ReadBase(d, start, count);
    got.Some? && |got.value| == count && Filled(bytes, 0, got.value)
  }

  // ----- the raw image -----

  class RawDiskImage {
    const openType: OpenType
    const offset: nat
    const sectorCount: nat
    var file: File?
    var overlay: MemoryOverlay?

    /** The open image file has the size it was measured with. */
    ghost predicate Base()
      reads this`file, (if file == null then {} else {file})`contents
    {
      file != null ==> offset <= |file.contents| && sectorCount == SectorCount(Disk(file.contents, offset))
    }

    /** The open image file has lost no sector since then; a write may have made it longer. */
    ghost predicate Whole()
      reads this`file, (if file == null then {} else {file})`contents
    {
      file != null ==> offset <= |file.contents| && sectorCount <= SectorCount(Disk(file.contents, offset))
    }

    ghost function AsDisk(): Disk
      requires file != null
      reads this`file, file`contents
    {
      Disk(file.contents, offset)
    }

    constructor (contents: seq<byte>, openType: OpenType, offset: nat)
      requires offset <= |contents|
      ensures Base() && Opened() && file == null && overlay == null
      ensures this.openType == openType && this.offset == offset && sectorCount == SectorCount(Disk(contents, offset))
    {
      this.openType, this.offset := openType, offset;
      sectorCount := (|contents| - offset) / SECTOR;
      file, overlay := null, null;
    }

    /** Only a read-write image is opened for writing, and only an overlay image has an overlay. */
    ghost predicate Opened()
      reads this
    {
      && (file != null ==> file.writable == openType.OpenReadWrite?)
      && (overlay != null ==> openType.OpenOverlay? && file != null && file != overlay.memory)
    }

    /**
     * RawDiskImage::open. `image` is what lies at the path, `openOk` and
     * `memfdOk` whether opening it and creating the memory file succeed.
     */
    method Open(image: Option<seq<byte>>, openOk: bool, memfdOk: bool) returns (r: Outcome)
      requires Opened()
      modifies this`file, this`overlay
      ensures Opened()
      ensures r == if image.None? then Err(DiskOpen)
                   else if |image.value| < offset then Err(DiskOpenTooShort)
                   else if !openOk then Err(DiskOpen)
                   else if openType.OpenOverlay? && !memfdOk then Err(MemoryOverlayCreate) else Ok
      ensures image.None? || |image.value| < offset || !openOk ==> file == old(file) && overlay == old(overlay)
      ensures image.Some? && offset <= |image.value| && openOk ==>
                && file != null && fresh(file) && file.contents == image.value
                && (Base() <==> SectorCount(Disk(image.value, offset)) == sectorCount)
      ensures openType.OpenOverlay? && r.Ok? ==>
                && overlay != null && fresh(overlay) && fresh(overlay.memory) && fresh(overlay.written)
                && overlay.Valid() && overlay.history == []
      ensures !openType.OpenOverlay? || r.Err? ==> overlay == old(overlay)
    {
      if image.None? {
        return Err(DiskOpen);
      }
      if |image.value| < offset {
        return Err(DiskOpenTooShort);
      }
      if !openOk {
        return Err(DiskOpen);
      }
      file := new File(image.value, openType == OpenReadWrite);
      if openType == OpenOverlay {
        if !memfdOk {
          return Err(MemoryOverlayCreate);
        }
        overlay := new MemoryOverlay();
      }
      r := Ok;
    }

    /** RawDiskImage::read_sectors. */
    method ReadSectors(start: nat, buffer: array<byte>, lo: nat, len: nat) returns (r: Outcome)
      requires Whole() && lo + len <= buffer.Length
      requires overlay != null ==> Base() && overlay.Valid() && file != null && file != overlay.memory
      modifies this`overlay, (if file == null then {} else {file})`pos, (if overlay == null then {} else {overlay.memory})`pos, buffer
      ensures overlay == old(overlay) && Whole() && (old(Base()) ==> Base()) && (old(Opened()) ==> Opened())
      ensures SameOutside(old(buffer[..]), buffer[..], lo, lo + len / SECTOR * SECTOR)
      ensures overlay == null && file == null ==> r.Err?
      ensures overlay == null && file != null ==>
                var want := ReadBase(AsDisk(), start, len / SECTOR);
                (r.Ok? <==> start <= sectorCount && want.Some?) && (r.Ok? ==> Filled(buffer[..], lo, want.value))
      ensures overlay != null ==>
                var want := ReadAsCoded(AsDisk(), overlay.Look(), start, len / SECTOR);
                (r.Ok? <==> want.Some?) && (r.Ok? ==> Filled(buffer[..], lo, want.value))
      decreases if overlay == null then 0 else 2
    {
      if overlay != null {
        var taken := overlay;
        overlay := null;
        r := taken.ReadSectors(this, start, buffer, lo, len);
        overlay := taken;
        return;
      }
      if start > sectorCount {
        return Err(BadSectorOffset);
      }
      if file == null {
        return Err(NotOpen);
      }
      file.Seek(start * SECTOR + offset);
      var bytes := len / SECTOR * SECTOR;
      var ok := file.ReadExact(buffer, lo, bytes);
      BaseRead(AsDisk(), start, len / SECTOR);
      if ok {
        BaseFilled(AsDisk(), start, len / SECTOR, buffer[..], lo);
      }
      r := if ok then Ok else Err(DiskRead);
    }

    /** RawDiskImage::write_sectors: the image file is never changed unless it was opened read-write. */
    method WriteSectors(start: nat, buffer: seq<byte>) returns (r: Outcome)
      requires Whole() && Opened()
      requires overlay != null ==> overlay.Valid()
      modifies if file == null || overlay != null then {} else {file}
      modifies if overlay == null then {} else {overlay, overlay.memory, overlay.written}
      ensures overlay != null ==> r.Ok? && overlay.Valid() && overlay.history == old(overlay.history) + [Write(start, buffer)]
      ensures overlay == null ==>
                r == if openType.OpenReadOnly? then Err(ReadOnly)
                     else if start > sectorCount then Err(BadSectorOffset)
                     else if file == null then Err(NotOpen)
                     else if openType.OpenOverlay? && |buffer| >= SECTOR then Err(DiskWrite) else Ok
      ensures overlay == null && file != null ==>
                file.contents == if r.Ok? then WriteAt(old(file.contents), start * SECTOR + offset, buffer[..|buffer| / SECTOR * SECTOR])
                                 else old(file.contents)
      ensures file != null && !openType.OpenReadWrite? ==> file.contents == old(file.contents)
      ensures Whole() && Opened()
      ensures old(Base()) ==>
                (Base() <==> overlay != null || r.Err? || start + |buffer| / SECTOR <= sectorCount)
      ensures overlay == null && r.Ok? ==> ReadsBack(AsDisk(), start, buffer[..|buffer| / SECTOR * SECTOR], |buffer| / SECTOR)
    {
      if overlay != null {
        overlay.WriteSectors(start, buffer);
        return Ok;
      }
      if openType.OpenReadOnly? {
        return Err(ReadOnly);
      }
      if start > sectorCount {
        return Err(BadSectorOffset);
      }
      if file == null {
        return Err(NotOpen);
      }
      file.Seek(start * SECTOR + offset);
      var len := |buffer| / SECTOR * SECTOR;
      BaseWritten(file.contents, offset, start, buffer[..len], |buffer| / SECTOR);
      var ok := file.WriteAll(buffer[..len]);
      r := if ok then Ok else Err(DiskWrite);
    }
  }
}

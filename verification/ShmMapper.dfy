/**
 * The device shared-memory registry (src/io/shm_mapper.rs): KVM memory slots
 * from a bit set, guest address ranges from an allocator, and the mappings
 * that tie them together.
 */
module ShmMapper {
  import opened Machine
  import opened BitSets

  const PAGE: nat := 4096

  /** An inclusive guest address range. */
  datatype Range = Range(start: nat, end: nat)

  predicate Disjoint(a: Range, b: Range) {
    a.end < b.start || b.end < a.start
  }

  /** round_to_page_size: the least multiple of the page size that holds n bytes. */
  function RoundToPage(n: nat): (r: nat)
    ensures r % PAGE == 0 && n <= r < n + PAGE
  {
    (n + PAGE - 1) / PAGE * PAGE
  }

  /**
   * `failed` holds the slots whose removal KVM refused: their mapping is
   * forgotten while slot and range stay taken.
   */
  datatype State = State(ram: nat, slots: set<nat>, mappings: map<nat, Range>, ranges: set<Range>, failed: map<nat, Range>)

  /** `choice` is the allocator's answer; the flags are KVM's. */
  datatype Event =
    | Register(size: nat, choice: Option<Range>, kvmOk: bool)
    | Unregister(slot: nat, kvmOk: bool)

  /** The slots below `ram` belong to guest RAM. */
  function RamSlots(ram: nat): (r: set<nat>)
    ensures forall i: nat :: i in r <==> i < ram
  {
    if ram == 0 then {} else RamSlots(ram - 1) + {ram - 1}
  }

  function Initial(ram: nat): State {
    State(ram, RamSlots(ram), map[], {}, map[])
  }

  /** What the address allocator guarantees about a range it hands out. */
  predicate FreshRange(s: State, size: nat, r: Range) {
    && size > 0
    && r.start % PAGE == 0
    && r.end == r.start + RoundToPage(size) - 1
    && (forall q :: q in s.ranges ==> Disjoint(r, q))
  }

  predicate Enabled(s: State, e: Event) {
    e.Register? && e.choice.Some? ==> FreshRange(s, e.size, e.choice.value)
  }

  // ----- the least free slot -----

  ghost predicate IsLeastFree(slots: set<nat>, i: nat) {
    i !in slots && forall j: nat :: j < i ==> j in slots
  }

  lemma {:induction false} FreeExists(slots: set<nat>, from: nat)
    requires forall j: nat :: j < from ==> j in slots
    ensures exists i: nat :: IsLeastFree(slots, i)
    decreases |slots - RamSlots(from)|
  {
    if from !in slots {
      assert IsLeastFree(slots, from);
    } else {
      assert slots - RamSlots(from + 1) < slots - RamSlots(from) by {
        assert from in slots - RamSlots(from);
      }
      SubsetSmaller(slots - RamSlots(from + 1), slots - RamSlots(from));
      FreeExists(slots, from + 1);
    }
  }

  lemma {:induction false} SubsetSmaller(a: set<nat>, b: set<nat>)
    requires a < b
    ensures |a| < |b|
  {
    var rest := b - a;
    assert b == a + rest;
    assert rest != {};
  }

  ghost function LeastFree(slots: set<nat>): (i: nat)
    ensures IsLeastFree(slots, i)
  {
    FreeExists(slots, 0);
    var i: nat :| IsLeastFree(slots, i);
    i
  }

  // ----- the operations -----

  /** allocate_addr_and_slot. */
  ghost function Taken(s: State, r: Range, slot: nat): State {
    s.(slots := s.slots + {slot}, ranges := s.ranges + {r})
  }

  /** free_range_and_slot. */
  function Freed(s: State, r: Range, slot: nat): State {
    s.(slots := s.slots - {slot}, ranges := s.ranges - {r})
  }

  ghost function DoRegister(s: State, choice: Option<Range>, kvmOk: bool): State {
    if choice.None? then s
    else
      var slot := LeastFree(s.slots);
      var t := Taken(s, choice.value, slot);
      if kvmOk then t.(mappings := t.mappings[slot := choice.value]) else Freed(t, choice.value, slot)
  }

  function DoUnregister(s: State, slot: nat, kvmOk: bool): State {
    if slot !in s.mappings then s
    else
      var r := s.mappings[slot];
      var t := s.(mappings := s.mappings - {slot});
      if kvmOk then Freed(t, r, slot) else t.(failed := t.failed[slot := r])
  }

  ghost function Step(s: State, e: Event): State {
    match e
    case Register(_, choice, kvmOk) => DoRegister(s, choice, kvmOk)
    case Unregister(slot, kvmOk) => DoUnregister(s, slot, kvmOk)
  }

  // ----- the invariant -----

  /** The range a slot holds: as a mapping, or left behind by a refused removal. */
  function RangeOf(s: State, i: nat): Option<Range> {
    if i in s.mappings then Some(s.mappings[i])
    else if i in s.failed then Some(s.failed[i])
    else None
  }

  /** Slot i is occupied exactly for one reason: RAM, a mapping, or a refused removal. */
  predicate SlotOk(s: State, i: nat) {
    && (i in s.slots <==> i < s.ram || RangeOf(s, i).Some?)
    && !(i in s.mappings && i in s.failed)
    && (i < s.ram ==> RangeOf(s, i).None?)
  }

  /** The range of a slot is page aligned and taken from the allocator. */
  predicate RangeOk(s: State, i: nat) {
    RangeOf(s, i).Some? ==>
      && RangeOf(s, i).value in s.ranges
      && RangeOf(s, i).value.start % PAGE == 0 && (RangeOf(s, i).value.end + 1) % PAGE == 0
      && RangeOf(s, i).value.start <= RangeOf(s, i).value.end
  }

  predicate Apart(s: State, i: nat, j: nat) {
    i != j && RangeOf(s, i).Some? && RangeOf(s, j).Some? ==> Disjoint(RangeOf(s, i).value, RangeOf(s, j).value)
  }

  /** A range taken from the allocator belongs to a slot. */
  ghost predicate Owned(s: State, r: Range) {
    r in s.ranges ==> exists i: nat :: RangeOf(s, i) == Some(r)
  }

  ghost predicate Invariant(s: State) {
    && (forall i: nat :: SlotOk(s, i))
    && (forall r: Range :: Owned(s, r))
    && (forall i: nat :: RangeOk(s, i))
    && (forall i: nat, j: nat :: Apart(s, i, j))
  }

  /** A refused registration leaves everything as it was. */
  lemma {:induction false} RefusedRegisterRestores(s: State, size: nat, choice: Option<Range>)
    requires Enabled(s, Register(size, choice, false))
    ensures DoRegister(s, choice, false) == s
  {
    if choice.Some? {
      assert choice.value !in s.ranges by {
        assert !Disjoint(choice.value, choice.value);
      }
      var slot := LeastFree(s.slots);
      assert s.slots + {slot} - {slot} == s.slots;
      assert s.ranges + {choice.value} - {choice.value} == s.ranges;
    }
  }

  lemma {:induction false} RegisterKeeps(s: State, size: nat, r: Range)
    requires Invariant(s) && Enabled(s, Register(size, Some(r), true))
    ensures Invariant(DoRegister(s, Some(r), true))
  {
    var slot := LeastFree(s.slots);
    var t := DoRegister(s, Some(r), true);
    assert SlotOk(s, slot);
    forall i: nat
      ensures SlotOk(t, i) && RangeOk(t, i)
      ensures RangeOf(t, i) == if i == slot then Some(r) else RangeOf(s, i)
    {
      assert SlotOk(s, i) && RangeOk(s, i);
    }
    forall i: nat, j: nat
      ensures Apart(t, i, j)
    {
      assert Apart(s, i, j) && RangeOk(s, i) && RangeOk(s, j);
    }
    forall q: Range
      ensures Owned(t, q)
    {
      assert Owned(s, q) && RangeOf(t, slot) == Some(r);
      if i: nat :| RangeOf(s, i) == Some(q) {
        assert RangeOf(t, i) == Some(q) || i == slot;
      }
    }
  }

  lemma {:induction false} UnregisterKeeps(s: State, slot: nat)
    requires Invariant(s) && slot in s.mappings
    ensures Invariant(DoUnregister(s, slot, true))
  {
    var t := DoUnregister(s, slot, true);
    assert SlotOk(s, slot);
    forall i: nat
      ensures SlotOk(t, i) && RangeOk(t, i)
      ensures RangeOf(t, i) == if i == slot then None else RangeOf(s, i)
    {
      assert SlotOk(s, i) && RangeOk(s, i) && Apart(s, i, slot);
    }
    forall i: nat, j: nat
      ensures Apart(t, i, j)
    {
      assert Apart(s, i, j);
    }
    forall q: Range
      ensures Owned(t, q)
    {
      assert Owned(s, q);
      if i: nat :| RangeOf(s, i) == Some(q) {
        assert i == slot || RangeOf(t, i) == Some(q);
      }
    }
  }

  lemma {:induction false} RefusedUnregisterKeeps(s: State, slot: nat)
    requires Invariant(s) && slot in s.mappings
    ensures Invariant(DoUnregister(s, slot, false))
  {
    var t := DoUnregister(s, slot, false);
    forall i: nat
      ensures SlotOk(t, i) && RangeOk(t, i) && RangeOf(t, i) == RangeOf(s, i)
    {
      assert SlotOk(s, i) && RangeOk(s, i);
    }
    forall i: nat, j: nat
      ensures Apart(t, i, j)
    {
      assert Apart(s, i, j);
    }
    forall q: Range
      ensures Owned(t, q)
    {
      assert Owned(s, q);
      if i: nat :| RangeOf(s, i) == Some(q) {
        assert RangeOf(t, i) == Some(q);
      }
    }
  }

  lemma {:induction false} StepKeeps(s: State, e: Event)
    requires Invariant(s) && Enabled(s, e)
    ensures Invariant(Step(s, e)) && Step(s, e).ram == s.ram
  {
    match e
    case Register(size, choice, kvmOk) =>
      if !kvmOk {
        RefusedRegisterRestores(s, size, choice);
      } else if choice.Some? {
        RegisterKeeps(s, size, choice.value);
      }
    case Unregister(slot, kvmOk) =>
      if slot in s.mappings {
        if kvmOk { UnregisterKeeps(s, slot); } else { RefusedUnregisterKeeps(s, slot); }
      }
  }

  // ----- whole runs -----

  ghost predicate Legal(ram: nat, es: seq<Event>)
    decreases |es|, 0
  {
    es != [] ==> Legal(ram, es[..|es| - 1]) && Enabled(Run(ram, es[..|es| - 1]), es[|es| - 1])
  }

  ghost function Run(ram: nat, es: seq<Event>): State
    requires Legal(ram, es)
    decreases |es|, 1
  {
    if es == [] then Initial(ram) else Step(Run(ram, es[..|es| - 1]), es[|es| - 1])
  }

  lemma {:induction false} RunKeeps(ram: nat, es: seq<Event>)
    requires Legal(ram, es)
    ensures Invariant(Run(ram, es)) && Run(ram, es).ram == ram
    decreases |es|
  {
    if es != [] {
      RunKeeps(ram, es[..|es| - 1]);
      StepKeeps(Run(ram, es[..|es| - 1]), es[|es| - 1]);
    }
  }

  /** KVM accepted every removal of the run. */
  predicate RemovalsOk(es: seq<Event>) {
    forall e :: e in es && e.Unregister? ==> e.kvmOk
  }

  lemma {:induction false} NothingFailed(ram: nat, es: seq<Event>)
    requires Legal(ram, es) && RemovalsOk(es)
    ensures Run(ram, es).failed == map[]
    decreases |es|
  {
    if es != [] {
      var front := es[..|es| - 1];
      assert es[|es| - 1] in es && forall e :: e in front ==> e in es;
      NothingFailed(ram, front);
    }
  }

  /**
   * In every run the occupied slots are exactly the RAM slots and the mapped
   * ones, if KVM accepted every removal, and include them in any case; a RAM
   * slot is never mapped.
   */
  lemma {:induction false} SlotAccounting(ram: nat, es: seq<Event>)
    requires Legal(ram, es)
    ensures var s := Run(ram, es);
            && RamSlots(ram) + s.mappings.Keys <= s.slots
            && RamSlots(ram) !! s.mappings.Keys
            && (RemovalsOk(es) ==> s.slots == RamSlots(ram) + s.mappings.Keys)
  {
    RunKeeps(ram, es);
    var s := Run(ram, es);
    assert forall i: nat :: i in RamSlots(ram) <==> i < ram;
    forall i: nat
      ensures i in RamSlots(ram) + s.mappings.Keys ==> i in s.slots
      ensures !(i in RamSlots(ram) && i in s.mappings)
    {
      assert SlotOk(s, i);
    }
    if RemovalsOk(es) {
      NothingFailed(ram, es);
      forall i: nat | i in s.slots
        ensures i in RamSlots(ram) + s.mappings.Keys
      {
        assert SlotOk(s, i);
      }
    }
  }

  /** If KVM accepted every removal, the allocator holds exactly the mapped ranges. */
  lemma {:induction false} RangeAccounting(ram: nat, es: seq<Event>, r: Range)
    requires Legal(ram, es) && RemovalsOk(es)
    ensures r in Run(ram, es).ranges <==> r in Run(ram, es).mappings.Values
  {
    RunKeeps(ram, es);
    NothingFailed(ram, es);
    var s := Run(ram, es);
    assert Owned(s, r);
    if r in s.mappings.Values {
      var i :| i in s.mappings && s.mappings[i] == r;
      assert RangeOk(s, i);
    }
  }

  /** Mapped guest ranges are whole pages and pairwise disjoint, in every run. */
  lemma {:induction false} MappedRangesDisjoint(ram: nat, es: seq<Event>, i: nat, j: nat)
    requires Legal(ram, es) && i in Run(ram, es).mappings && j in Run(ram, es).mappings && i != j
    ensures Disjoint(Run(ram, es).mappings[i], Run(ram, es).mappings[j])
    ensures Run(ram, es).mappings[i].start % PAGE == 0 && (Run(ram, es).mappings[i].end + 1) % PAGE == 0
  {
    RunKeeps(ram, es);
    var s := Run(ram, es);
    assert Apart(s, i, j) && RangeOk(s, i);
  }

  /** Registering and unregistering again is no change. */
  lemma {:induction false} RegisterUnregister(s: State, size: nat, r: Range)
    requires Invariant(s) && Enabled(s, Register(size, Some(r), true))
    ensures DoUnregister(DoRegister(s, Some(r), true), LeastFree(s.slots), true) == s
  {
    var slot := LeastFree(s.slots);
    RefusedRegisterRestores(s, size, Some(r));
    assert SlotOk(s, slot);
    assert s.mappings[slot := r] - {slot} == s.mappings;
  }

  // ----- the registrations of a run -----

  /** The registrations in force, and those whose removal was refused. */
  datatype Books = Books(live: map<nat, Range>, lost: map<nat, Range>)

  ghost function SlotsOf(ram: nat, b: Books): set<nat> {
    RamSlots(ram) + b.live.Keys + b.lost.Keys
  }

  /** From the events: accepted registrations, each at the least slot that RAM and the others leave, until removed. */
  ghost function BooksOf(ram: nat, es: seq<Event>): Books {
    if es == [] then Books(map[], map[])
    else
      var b := BooksOf(ram, es[..|es| - 1]);
      match es[|es| - 1]
      case Register(_, choice, kvmOk) =>
        if choice.Some? && kvmOk then b.(live := b.live[LeastFree(SlotsOf(ram, b)) := choice.value]) else b
      case Unregister(slot, kvmOk) =>
        if slot !in b.live then b
        else Books(b.live - {slot}, if kvmOk then b.lost else b.lost[slot := b.live[slot]])
  }

  lemma {:induction false} LeastFreeUnique(s: set<nat>, i: nat, j: nat)
    requires IsLeastFree(s, i) && IsLeastFree(s, j)
    ensures i == j
  {
  }

  lemma {:induction false} SlotsAre(s: State, b: Books)
    requires Invariant(s) && s.mappings == b.live && s.failed == b.lost
    ensures s.slots == SlotsOf(s.ram, b)
  {
    forall i: nat
      ensures i in s.slots <==> i in SlotsOf(s.ram, b)
    {
      assert SlotOk(s, i);
    }
  }

  /** In every run the mappings are exactly the registrations in force, and the other occupied slots those of RAM. */
  lemma {:induction false} MappedAsRegistered(ram: nat, es: seq<Event>)
    requires Legal(ram, es)
    ensures var s, b := Run(ram, es), BooksOf(ram, es);
            s.mappings == b.live && s.failed == b.lost && s.slots == SlotsOf(ram, b)
    decreases |es|
  {
    var b := BooksOf(ram, es);
    if es == [] {
      assert SlotsOf(ram, b) == RamSlots(ram);
    } else {
      var front, e := es[..|es| - 1], es[|es| - 1];
      MappedAsRegistered(ram, front);
      RunKeeps(ram, front);
      RunKeeps(ram, es);
      if e.Register? && !e.kvmOk {
        RefusedRegisterRestores(Run(ram, front), e.size, e.choice);
      }
      SlotsAre(Run(ram, es), b);
    }
  }

  /** The allocator's ranges are theirs, and those of refused removals. */
  lemma {:induction false} RangesAsRegistered(ram: nat, es: seq<Event>, r: Range)
    requires Legal(ram, es)
    ensures r in Run(ram, es).ranges <==> r in BooksOf(ram, es).live.Values || r in BooksOf(ram, es).lost.Values
  {
    RunKeeps(ram, es);
    MappedAsRegistered(ram, es);
    var s := Run(ram, es);
    assert Owned(s, r);
    if r in s.mappings.Values {
      var i :| i in s.mappings && s.mappings[i] == r;
      assert RangeOk(s, i);
    }
    if r in s.failed.Values {
      var i :| i in s.failed && s.failed[i] == r;
      assert SlotOk(s, i) && RangeOk(s, i);
    }
  }

  /** The slot an accepted registration is given: free, unmapped and above RAM. The range holds the size, in pages. */
  lemma {:induction false} RegisteredSlot(ram: nat, es: seq<Event>, size: nat, r: Range)
    requires Legal(ram, es) && Enabled(Run(ram, es), Register(size, Some(r), true))
    ensures var s, slot := Run(ram, es), LeastFree(Run(ram, es).slots);
            var t := Step(s, Register(size, Some(r), true));
            && slot >= ram && slot !in s.mappings && slot !in s.failed
            && t.mappings == s.mappings[slot := r] && r in t.ranges && slot in t.slots
            && size <= r.end - r.start + 1 < size + 4096
  {
    RunKeeps(ram, es);
    assert SlotOk(Run(ram, es), LeastFree(Run(ram, es).slots));
  }

  /** A mapping stays where it is until its slot is unregistered. */
  lemma {:induction false} StaysMapped(ram: nat, es: seq<Event>, ms: seq<Event>, slot: nat)
    requires Legal(ram, es) && Legal(ram, es + ms) && slot in Run(ram, es).mappings
    requires forall i :: 0 <= i < |ms| ==> !(ms[i].Unregister? && ms[i].slot == slot)
    ensures slot in Run(ram, es + ms).mappings && Run(ram, es + ms).mappings[slot] == Run(ram, es).mappings[slot]
    decreases |ms|
  {
    if ms == [] {
      assert es + ms == es;
    } else {
      var all, front := es + ms, ms[..|ms| - 1];
      assert all[..|all| - 1] == es + front;
      StaysMapped(ram, es, front, slot);
      RunKeeps(ram, es + front);
      assert SlotOk(Run(ram, es + front), slot);
    }
  }

  // ----- the code -----

  /** DeviceSharedMemory. */
  class DeviceSharedMemory {
    const ram: nat
    const slots: BitSet
    var mappings: map<nat, Range>
    var ranges: set<Range>
    ghost var slotSet: set<nat>
    ghost var failed: map<nat, Range>

    ghost predicate Valid()
      reads this, slots
    {
      forall i: nat :: slots.Contains(i) <==> i in slotSet
    }

    ghost function View(): State
      reads this
    {
      State(ram, slotSet, mappings, ranges, failed)
    }

    constructor (ram: nat)
      ensures Valid() && Invariant(View()) && fresh(slots) && View() == Initial(ram)
    {
      this.ram := ram;
      slots := new BitSet();
      mappings, ranges := map[], {};
      slotSet, failed := RamSlots(ram), map[];
      new;
      for i := 0 to ram
        invariant View() == Initial(ram)
        invariant fresh(slots)
        invariant forall j: nat :: slots.Contains(j) <==> j < i
      {
        slots.Insert(i);
      }
    }

    /** allocate_slot: the search for the least free slot ends behind the last block of the bit set. */
    method AllocateSlot() returns (slot: nat)
      requires Valid()
      modifies this`slotSet, slots
      ensures Valid() && slot == LeastFree(old(slotSet)) && slotSet == old(slotSet) + {slot}
    {
      slot := 0;
      while true
        invariant forall j: nat :: j < slot ==> slots.Contains(j)
        invariant Valid() && slotSet == old(slotSet) && slots.blocks == old(slots.blocks)
        decreases 64 * |slots.blocks| - slot
      {
        var present := slots.Get(slot);
        if !present {
          break;
        }
        if slot >= 64 * |slots.blocks| {
          NothingBeyond(slots.blocks, slot);
          assert false;
        }
        slot := slot + 1;
      }
      assert IsLeastFree(slotSet, slot);
      LeastFreeUnique(slotSet, slot, LeastFree(slotSet));
      slots.Insert(slot);
      slotSet := slotSet + {slot};
    }

    /** register. */
    method Register(size: nat, choice: Option<Range>, kvmOk: bool) returns (result: Option<nat>)
      requires Valid() && Invariant(View()) && Enabled(View(), Event.Register(size, choice, kvmOk))
      modifies this, slots
      ensures Valid() && Invariant(View()) && View() == DoRegister(old(View()), choice, kvmOk)
      ensures result == if choice.Some? && kvmOk then Some(LeastFree(old(slotSet))) else None
      ensures result.Some? ==>
                && result.value !in old(mappings) && mappings == old(mappings)[result.value := choice.value]
                && choice.value in ranges && slots.Contains(result.value)
    {
      StepKeeps(View(), Event.Register(size, choice, kvmOk));
      assert SlotOk(View(), LeastFree(slotSet));
      if choice.None? {
        return None;
      }
      var range := choice.value;
      ranges := ranges + {range};
      var slot := AllocateSlot();
      if !kvmOk {
        FreeRangeAndSlot(range, slot);
        return None;
      }
      mappings := mappings[slot := range];
      return Some(slot);
    }

    /** free_range_and_slot. */
    method FreeRangeAndSlot(range: Range, slot: nat)
      requires Valid()
      modifies this`ranges, this`slotSet, slots
      ensures Valid() && View() == Freed(old(View()), range, slot)
    {
      ranges := ranges - {range};
      slots.Remove(slot);
      slotSet := slotSet - {slot};
    }

    /** unregister. */
    method Unregister(slot: nat, kvmOk: bool) returns (ok: bool)
      requires Valid() && Invariant(View())
      modifies this, slots
      ensures Valid() && Invariant(View()) && View() == DoUnregister(old(View()), slot, kvmOk)
      ensures ok == (kvmOk || slot !in old(mappings))
    {
      StepKeeps(View(), Event.Unregister(slot, kvmOk));
      if slot in mappings {
        var range := mappings[slot];
        mappings := mappings - {slot};
        if !kvmOk {
          failed := failed[slot := range];
          return false;
        }
        FreeRangeAndSlot(range, slot);
      }
      return true;
    }
  }
}

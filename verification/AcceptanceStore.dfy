/**
 * The two-slot acceptance store: loading the current state, and the compare-and-commit that
 * overwrites the inactive slot.
 */
module AcceptanceStore {
  import opened Bytes
  import opened AcceptanceRecord
  import opened AcceptanceUpdate
  import opened Tee

  /** The state in force; `active` is the slot it was read from, or -1 before the first commit. */
  datatype Current = Current(generation: u64, components: seq<Component>, digest: Option<digest>, active: int)

  /** What load_current sees of one slot. */
  datatype SlotView = Absent | Unreadable | Newer | Good(record: Record)

  function View(store: Store, i: slot): SlotView {
    var r := ReadObject(store, Acceptance(i), MAX_SIZE);
    if r == Err(ItemNotFound) then Absent
    else if r.Err? then Unreadable
    else match ParseSlot(r.value)
      case Valid(record) => Good(record)
      case Malformed => Unreadable
      case Unsupported => Newer
  }

  function FromSlot(record: Record, i: slot): Current {
    Current(record.generation, record.components, Some(record.digest), i)
  }

  function LoadLegacy(store: Store): Result<Current> {
    var r := ReadObject(store, Legacy, MAX_SIZE);
    if r == Err(ItemNotFound) then Done(Current(0, [], None, -1))
    else if r.Err? then Err(CorruptObject)
    else
      var p := ParseComponents(r.value);
      if p.Ok? && p.rest == [] then Done(Current(0, p.value, None, -1)) else Err(CorruptObject)
  }

  function LoadCurrent(store: Store): (r: Result<Current>)
    ensures r.Done? ==> -1 <= r.value.active <= 1
    ensures r.Err? ==> r.code in {NotSupported, Security, CorruptObject}
  {
    var a, b := View(store, 0), View(store, 1);
    if a.Newer? || b.Newer? then Err(NotSupported)
    else if a.Good? && b.Good? && a.record.generation == b.record.generation && a.record != b.record then Err(Security)
    else if a.Good? && (b.Good? ==> a.record.generation >= b.record.generation) then Done(FromSlot(a.record, 0))
    else if b.Good? then Done(FromSlot(b.record, 1))
    else if a.Unreadable? || b.Unreadable? then Err(CorruptObject)
    else LoadLegacy(store)
  }

  /** twep_acceptance_component_sequence: the generation and the accepted sequence of one component. */
  function ComponentSequence(store: Store, id: bytes): Result<(u64, u64)> {
    var r := LoadCurrent(store);
    if id == [] then Err(BadParameters)
    else if r.Err? then Err(r.code)
    else if id in AsMap(r.value.components) then Done((r.value.generation, AsMap(r.value.components)[id]))
    else Err(ItemNotFound)
  }

  datatype Accept = Accept(digest: digest, id: blob, sequence: u64, expected: u64)

  datatype Reply = Reply(store: Store, result: Result<u64>)

  /** Everything twep_acceptance_commit checks before it touches storage, and the record it would write. */
  function Prepare(store: Store, a: Accept): Result<(Current, bytes)> {
    var r := LoadCurrent(store);
    if a.id == [] || a.sequence == 0 then Err(BadParameters)
    else if r.Err? then Err(r.code)
    else if r.value.generation != a.expected then Err(AccessConflict)
    else if r.value.generation == U64_MAX then Err(Overflow)
    else if r.value.digest == Some(a.digest) then Err(AccessConflict)
    else
      var out := EncodeUpdated(r.value.generation, r.value.components, a.digest, a.id, a.sequence);
      if out.Err? then Err(out.code) else Done((r.value, out.value))
  }

  function TargetSlot(current: Current): slot { if current.active == 0 then 1 else 0 }

  function Commit(store: Store, a: Accept, fault: Fault): Reply {
    var p := Prepare(store, a);
    if p.Err? then Reply(store, Err(p.code))
    else
      Reply(WriteObject(store, Acceptance(TargetSlot(p.value.0)), p.value.1, fault),
            if fault == NoFault then Done(p.value.0.generation + 1) else Err(FaultCode(fault)))
  }

  /** The commit was accepted and its slot holds the new record, whatever the caller was told. */
  predicate TakesEffect(store: Store, a: Accept, fault: Fault) {
    Prepare(store, a).Done? && Lands(fault)
  }

  /** The state a commit leads to when it takes effect. */
  function Committed(current: Current, a: Accept): Current
    requires current.generation < U64_MAX
  {
    Current(current.generation + 1, Upsert(current.components, Component(a.id, a.sequence)), Some(a.digest),
            TargetSlot(current))
  }

  /** The first commit of a device was cut between creating its slot and writing it. */
  predicate CutAtGenerationZero(store: Store, a: Accept, fault: Fault) {
    var p := Prepare(store, a);
    p.Done? && p.value.0.active == -1 && fault == CutAfterCreate
  }

  // ----- crash consistency -----

  lemma LoadedIsSorted(store: Store)
    requires LoadCurrent(store).Done?
    ensures var c := LoadCurrent(store).value; Sorted(c.components) && |c.components| <= MAX_COMPONENTS
  {
    hide ParseComponents, ParseSlot;
    ViewIsWellFormed(store, 0);
    ViewIsWellFormed(store, 1);
    var r := ReadObject(store, Legacy, MAX_SIZE);
    if r.Done? {
      var p := ParseComponents(r.value);
      if p.Ok? {
        ParseComponentsIff(r.value, p.value, p.rest);
      }
    }
  }

  lemma ViewIsWellFormed(store: Store, i: slot)
    ensures View(store, i).Good? ==> WellFormed(View(store, i).record)
  {
    if View(store, i).Good? {
      ParseSlotIff(store[Acceptance(i)], View(store, i).record);
    }
  }

  /** Preparing yields a slot record that reads back as the committed state. */
  lemma PreparedReadsBack(store: Store, a: Accept)
    requires Prepare(store, a).Done?
    ensures var (c, out) := Prepare(store, a).value; var after := Committed(c, a);
            c == LoadCurrent(store).value && 0 < |out| <= MAX_SIZE
            && ParseSlot(out) == Valid(Record(after.generation, after.components, a.digest))
            && AsMap(after.components) == AsMap(c.components)[a.id := a.sequence]
            && (a.id in AsMap(c.components) ==> AsMap(c.components)[a.id] < a.sequence)
  {
    hide ParseSlot, LoadCurrent, EncodeRecord, Upsert, Ordered, AsMap;
    LoadedIsSorted(store);
    var c := LoadCurrent(store).value;
    UpdateRoundTrip(c.generation, c.components, a.digest, a.id, a.sequence);
    var r := Record(c.generation + 1, Upsert(c.components, Component(a.id, a.sequence)), a.digest);
    ParseSlotIff(EncodeRecord(r), ParseSlot(EncodeRecord(r)).record);
    UpsertOrdered(c.components, Component(a.id, a.sequence), None);
    ParseSlotIff(EncodeRecord(r), r);
  }

  lemma LoadCases(store: Store)
    ensures var r := LoadCurrent(store);
            r.Done? && r.value.active >= 0
            ==> (var v := View(store, r.value.active); v.Good? && r.value == FromSlot(v.record, r.value.active))
    ensures var r := LoadCurrent(store);
            r.Done? && r.value.active == -1
            ==> View(store, 0).Absent? && View(store, 1).Absent? && r == LoadLegacy(store) && r.value.generation == 0
  {
    hide ParseSlot, ParseComponents;
  }

  lemma ViewFrame(store: Store, after: Store, i: slot)
    requires SameAt(store, after, Acceptance(i))
    ensures View(store, i) == View(after, i)
  {
  }

  /** Only the two acceptance slots and the legacy object decide what is current. */
  lemma LoadFrame(store: Store, after: Store)
    requires SameAt(store, after, Acceptance(0)) && SameAt(store, after, Acceptance(1)) && SameAt(store, after, Legacy)
    ensures LoadCurrent(after) == LoadCurrent(store)
  {
    hide View, ParseComponents;
    ViewFrame(store, after, 0);
    ViewFrame(store, after, 1);
  }

  lemma WrittenView(store: Store, i: slot, data: bytes, fault: Fault, record: Record)
    requires 0 < |data| <= MAX_SIZE && ParseSlot(data) == Valid(record)
    ensures var after := WriteObject(store, Acceptance(i), data, fault);
            View(after, 1 - i) == View(store, 1 - i)
            && View(after, i) == match fault
                                 case CreateFails => View(store, i)
                                 case CutAfterCreate => Unreadable
                                 case WriteFails => Absent
                                 case _ => Good(record)
  {
    hide ParseSlot;
  }

  /**
   * A commit, whatever fault strikes it, leaves exactly the old state or exactly the new one; the
   * only exception is a power cut between creating and writing the very first slot.
   */
  lemma CrashConsistency(store: Store, a: Accept, fault: Fault)
    requires LoadCurrent(store).Done?
    ensures var old_ := LoadCurrent(store).value;
            LoadCurrent(Commit(store, a, fault).store) ==
            if TakesEffect(store, a, fault) then Done(Committed(old_, a))
            else if CutAtGenerationZero(store, a, fault) then Err(CorruptObject)
            else Done(old_)
  {
    hide ParseSlot, ParseComponents, EncodeUpdated, Upsert, View;
    var p := Prepare(store, a);
    if p.Done? {
      LoadCases(store);
      PreparedReadsBack(store, a);
      var (c, out) := p.value;
      var next := Committed(c, a);
      WrittenView(store, TargetSlot(c), out, fault, Record(next.generation, next.components, a.digest));
    }
  }
}

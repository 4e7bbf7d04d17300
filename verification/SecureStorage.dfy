/**
 * The protected state as the trusted application works it: one private storage whose objects are
 * overwritten in place. Every method is proved against the functions of the store modules.
 */
module SecureStorage {
  import opened Bytes
  import opened AcceptanceRecord
  import opened AcceptanceUpdate
  import opened AcceptanceStore
  import opened CatalogStore
  import opened AppStore
  import opened Tee
  import C = CatalogRecord
  import A = AppRecord

  lemma ParsesAlike(raw: bytes, raw': bytes)
    requires ParseSlot(raw).Valid? && ParseSlot(raw').Valid?
    ensures raw == raw' <==> ParseSlot(raw).record == ParseSlot(raw').record
  {
    hide ParseSlot;
    ParseSlotIff(raw, ParseSlot(raw).record);
    ParseSlotIff(raw', ParseSlot(raw').record);
  }

  lemma {:induction false} FirstEntry(cs: seq<Component>, k: nat)
    requires k < |cs| && (forall i :: 0 <= i < k ==> cs[i].id != cs[k].id)
    ensures cs[k].id in AsMap(cs) && AsMap(cs)[cs[k].id] == cs[k].sequence
  {
    if k > 0 {
      FirstEntry(cs[1..], k - 1);
    }
  }

  class Storage {
    var objects: Store

    constructor ()
      ensures objects == map[]
    {
      objects := map[];
    }

    /** Creating truncates the object; a failed write deletes it. */
    method WriteSlot(id: Object, data: bytes, fault: Fault) returns (ok: bool)
      modifies this
      ensures objects == WriteObject(old(objects), id, data, fault)
      ensures ok <==> fault == NoFault || fault == ReopenFails
    {
      if fault == CreateFails {
        return false;
      }
      objects := objects[id := []];
      if fault == CutAfterCreate {
        return false;
      }
      if fault == WriteFails {
        objects := objects - {id};
        assert objects == old(objects) - {id};
        return false;
      }
      objects := objects[id := data];
      assert objects == old(objects)[id := data];
      return fault == NoFault || fault == ReopenFails;
    }

    /** load_current: read and parse both slots, keep the newest, fall back to the legacy object. */
    method LoadCurrentState() returns (r: Result<Current>)
      ensures r == LoadCurrent(objects)
    {
      hide ParseSlot, ParseComponents;
      var present, raws: seq<bytes>, records: seq<Option<Record>> := [], [], [];
      var selected := -1;
      for i := 0 to 2
        invariant |present| == |raws| == |records| == i && -1 <= selected < i
        invariant forall j: int :: 0 <= j < i ==> present[j] == !View(objects, j).Absent? && !View(objects, j).Newer?
        invariant forall j: int :: 0 <= j < i ==> records[j].Some? == View(objects, j).Good?
        invariant forall j: int :: 0 <= j < i && records[j].Some? ==>
                                     View(objects, j) == Good(records[j].value) && ParseSlot(raws[j]) == Valid(records[j].value)
        invariant selected < 0 ==> forall j: int :: 0 <= j < i ==> records[j].None?
        invariant selected >= 0 ==> records[selected].Some?
        invariant selected == 0 && i == 2 && records[1].Some? ==>
                    records[0].value.generation >= records[1].value.generation
        invariant selected == 1 && records[0].Some? ==> records[1].value.generation > records[0].value.generation
      {
        var o := ReadObject(objects, Acceptance(i), MAX_SIZE);
        present := present + [o != Err(ItemNotFound)];
        if o.Err? {
          raws, records := raws + [[]], records + [None];
        } else {
          var status := ParseSlotBytes(o.value);
          if status.Unsupported? {
            return Err(NotSupported);
          }
          raws := raws + [o.value];
          if status.Valid? {
            records := records + [Some(status.record)];
            if selected < 0 || status.record.generation > records[selected].value.generation {
              selected := i;
            }
          } else {
            records := records + [None];
          }
        }
      }
      if selected >= 0 {
        if records[0].Some? && records[1].Some? {
          ParsesAlike(raws[0], raws[1]);
          if records[0].value.generation == records[1].value.generation && raws[0] != raws[1] {
            return Err(Security);
          }
        }
        return Done(FromSlot(records[selected].value, selected));
      }
      if present[0] || present[1] {
        return Err(CorruptObject);
      }
      r := LoadLegacyState();
    }

    method LoadLegacyState() returns (r: Result<Current>)
      ensures r == LoadLegacy(objects)
    {
      var o := ReadObject(objects, Legacy, MAX_SIZE);
      if o == Err(ItemNotFound) {
        return Done(Current(0, [], None, -1));
      }
      if o.Err? {
        return Err(CorruptObject);
      }
      var ok, components, off := ParseComponentsAt(o.value, 0);
      assert o.value[0..] == o.value;
      return if ok && off == |o.value| then Done(Current(0, components, None, -1)) else Err(CorruptObject);
    }

    /** twep_acceptance_component_sequence: a linear search in the current component list. */
    method FindComponentSequence(id: bytes) returns (r: Result<(u64, u64)>)
      ensures r == ComponentSequence(objects, id)
    {
      hide LoadCurrent;
      if id == [] {
        return Err(BadParameters);
      }
      var current := LoadCurrentState();
      if current.Err? {
        return Err(current.code);
      }
      var cs := current.value.components;
      for i := 0 to |cs|
        invariant forall j :: 0 <= j < i ==> cs[j].id != id
      {
        if cs[i].id == id {
          FirstEntry(cs, i);
          return Done((current.value.generation, cs[i].sequence));
        }
      }
      NotInMap(cs, id);
      return Err(ItemNotFound);
    }

    /** twep_acceptance_commit. The read-back after a clean write never disagrees. */
    method AcceptanceCommit(a: Accept, fault: Fault) returns (r: Result<u64>)
      modifies this
      ensures Reply(objects, r) == Commit(old(objects), a, fault)
    {
      hide LoadCurrent, ParseSlot, EncodeUpdated;
      if a.id == [] || a.sequence == 0 {
        return Err(BadParameters);
      }
      var loaded := LoadCurrentState();
      if loaded.Err? {
        return Err(loaded.code);
      }
      var current := loaded.value;
      if current.generation != a.expected {
        return Err(AccessConflict);
      }
      if current.generation == U64_MAX {
        return Err(Overflow);
      }
      if current.digest == Some(a.digest) {
        return Err(AccessConflict);
      }
      LoadedIsSorted(objects);
      var encoded := EncodeUpdatedRecord(current.generation, current.components, a.digest, a.id, a.sequence);
      if encoded.Err? {
        return Err(encoded.code);
      }
      PreparedReadsBack(objects, a);
      var target := if current.active == 0 then 1 else 0;
      var ok := WriteSlot(Acceptance(target), encoded.value, fault);
      if !ok {
        return Err(FaultCode(fault));
      }
      if fault == ReopenFails {
        return Err(CorruptObject);
      }
      var back := ReadObject(objects, Acceptance(target), MAX_SIZE);
      if back.Err? {
        return Err(CorruptObject);
      }
      var status := ParseSlotBytes(back.value);
      if !status.Valid? || back.value != encoded.value {
        return Err(CorruptObject);
      }
      return Done(current.generation + 1);
    }

    /** load_active_catalog: the slot whose sequence is the accepted one. */
    method LoadActiveCatalogState(sha: Sha) returns (r: Result<(slot, C.CatalogRecord)>)
      ensures r == LoadActiveCatalog(sha, objects)
    {
      hide ComponentSequence, C.ParseCatalog;
      var accepted := FindComponentSequence(C.DEFAULT_ID);
      if accepted.Err? {
        return Err(accepted.code);
      }
      var views: seq<CatalogView> := [];
      var selected, matching := -1, 0;
      for i := 0 to 2
        invariant |views| == i && -1 <= selected < i
        invariant forall j: int :: 0 <= j < i ==> views[j] == ViewCatalog(sha, objects, j) && !views[j].Later?
        invariant selected < 0 ==> matching == 0 && forall j: int :: 0 <= j < i ==> !Matches(views[j], accepted.value.1)
        invariant selected >= 0 ==> matching > 0 && Matches(views[selected], accepted.value.1)
        invariant selected == 0 && i == 2 && Matches(views[1], accepted.value.1) ==>
                    views[0].record.generation >= views[1].record.generation
        invariant selected == 1 && Matches(views[0], accepted.value.1) ==>
                    views[1].record.generation > views[0].record.generation
        invariant i == 2 ==> (matching == 2 <==> Matches(views[0], accepted.value.1) && Matches(views[1], accepted.value.1))
        invariant i == 1 ==> matching == if Matches(views[0], accepted.value.1) then 1 else 0
      {
        var o := ReadObject(objects, Catalog(i), C.MAX_RECORD);
        if o == Err(ItemNotFound) {
          views := views + [Missing];
        } else if o.Err? {
          views := views + [Unusable];
        } else {
          var status := C.ParseCatalogBytes(sha, o.value);
          if status.Unsupported? {
            return Err(NotSupported);
          }
          if status.Valid? {
            views := views + [Staged(status.record)];
            if status.record.sequence == accepted.value.1 {
              matching := matching + 1;
              if selected < 0 || status.record.generation > views[selected].record.generation {
                selected := i;
              }
            }
          } else {
            views := views + [Unusable];
          }
        }
      }
      if matching == 0 {
        return Err(if views[0].Missing? && views[1].Missing? then ItemNotFound else CorruptObject);
      }
      if matching == 2 && views[0].record.catalog != views[1].record.catalog {
        return Err(Security);
      }
      return Done((selected, views[selected].record));
    }

    /** The checks of twep_catalog_commit, up to the slot to stage in. */
    method CheckCatalogCommit(sha: Sha, q: CatalogRequest) returns (r: Result<slot>)
      ensures r == PrepareCatalog(sha, objects, q)
    {
      hide LoadCurrent, ComponentSequence, LoadActiveCatalog;
      if q.accept.id != C.DEFAULT_ID || q.accept.sequence == 0 || q.catalog == [] || |q.catalog| > C.MAX_PAYLOAD
         || q.accept.expected == U64_MAX {
        return Err(BadParameters);
      }
      if sha(q.catalog) != q.claimed {
        return Err(Security);
      }
      var current := LoadCurrentState();
      if current.Err? {
        return Err(current.code);
      }
      if current.value.generation != q.accept.expected {
        return Err(AccessConflict);
      }
      var sequence := FindComponentSequence(C.DEFAULT_ID);
      if sequence.Err? {
        return if sequence.code == ItemNotFound then Done(0) else Err(sequence.code);
      }
      if q.accept.sequence <= sequence.value.1 {
        return Err(AccessConflict);
      }
      var active := LoadActiveCatalogState(sha);
      if active.Err? {
        return Err(active.code);
      }
      return Done(if active.value.0 == 0 then 1 else 0);
    }

    /** twep_catalog_commit: stage, read back, then publish through the acceptance slot. */
    method CatalogCommit(sha: Sha, q: CatalogRequest, staging: Fault, publish: Fault) returns (r: Result<u64>)
      modifies this
      ensures Reply(objects, r) == CommitCatalog(sha, old(objects), q, staging, publish)
    {
      hide LoadCurrent, ComponentSequence, LoadActiveCatalog, C.ParseCatalog, C.EncodeFields, Commit;
      var checked := CheckCatalogCommit(sha, q);
      if checked.Err? {
        return Err(checked.code);
      }
      var target, hash := checked.value, sha(q.catalog);
      ghost var staged := StagedRecord(q);
      var ok, record := C.EncodeCatalogBytes(hash, C.CatalogRecord(q.accept.expected + 1, q.accept.sequence, q.catalog));
      ok := WriteSlot(Catalog(target), record, staging);
      if !ok {
        return Err(FaultCode(staging));
      }
      if staging == ReopenFails {
        return Err(CorruptObject);
      }
      C.CatalogFits(sha, staged);
      C.ParseCatalogIff(sha, record, staged);
      var back := ReadObject(objects, Catalog(target), C.MAX_RECORD);
      if back.Err? {
        return Err(CorruptObject);
      }
      var status := C.ParseCatalogBytes(sha, back.value);
      if !status.Valid? || back.value != record {
        return Err(CorruptObject);
      }
      r := AcceptanceCommit(q.accept, publish);
    }

    /** read_app_slot: the record, or the header generation of an object that does not parse. */
    method ReadAppSlot(sha: Sha, i: slot) returns (v: AppView)
      ensures v == ViewApp(sha, objects, i)
    {
      var o := ReadObject(objects, App(i), A.MAX_RECORD);
      if o == Err(ItemNotFound) {
        return NoApp;
      }
      if o.Err? || |o.value| < A.HEADER || o.value[..8] != A.MAGIC {
        return BadApp(0);
      }
      var p := A.ParseApp(sha, o.value);
      return if p.Done? then StagedApp(p.value, o.value) else BadApp(A.ReadHeader(o.value).generation);
    }

    /** load_active_app: the qualifying slot with the highest generation. */
    method LoadActiveAppState(sha: Sha) returns (r: Result<(slot, A.AppRecord)>)
      ensures r == LoadActiveApp(sha, objects)
    {
      hide LoadCurrent, ViewApp, AsMap;
      var views: seq<AppView> := [];
      var selected := -1;
      ghost var cur := LoadCurrent(objects);
      for i := 0 to 2
        invariant |views| == i && -1 <= selected < i
        invariant forall j: int :: 0 <= j < i ==> views[j] == ViewApp(sha, objects, j)
        invariant cur.Err? ==> selected < 0 && forall j: int :: 0 <= j < i ==> !views[j].StagedApp?
        invariant cur.Done? && selected < 0 ==> forall j: int :: 0 <= j < i ==> !Qualifies(views[j], cur.value)
        invariant selected >= 0 ==> cur.Done? && Qualifies(views[selected], cur.value)
        invariant selected == 0 && i == 2 && Qualifies(views[1], cur.value) ==>
                    views[0].record.generation >= views[1].record.generation
        invariant selected == 1 && Qualifies(views[0], cur.value) ==>
                    views[1].record.generation > views[0].record.generation
      {
        var v := ReadAppSlot(sha, i);
        views := views + [v];
        if v.StagedApp? {
          StagedIdIsNotEmpty(sha, objects, i);
          var s := FindComponentSequence(v.record.id);
          if s.Done? {
            if s.value.1 == v.record.sequence && s.value.0 >= v.record.generation
               && (selected < 0 || v.record.generation > views[selected].record.generation) {
              selected := i;
            }
          } else if s.code != ItemNotFound {
            return Err(s.code);
          }
        }
      }
      if selected < 0 {
        return Err(if views[0].NoApp? && views[1].NoApp? then ItemNotFound else CorruptObject);
      }
      var other := views[1 - selected];
      if !other.NoApp? && Generation(other) == views[selected].record.generation && views[0] != views[1] {
        return Err(Security);
      }
      return Done((selected, views[selected].record));
    }

    /** The checks of twep_app_commit, up to the slot to stage in. */
    method CheckAppCommit(sha: Sha, q: AppRequest) returns (r: Result<slot>)
      ensures r == PrepareApp(sha, objects, q)
    {
      hide LoadCurrent, ComponentSequence, LoadActiveApp, A.IsAppId;
      var valid := A.ComponentIdIsValid(q.accept.id);
      if !valid || q.accept.sequence == 0 || q.wasm == [] || |q.wasm| > A.MAX_APP || q.accept.expected == U64_MAX {
        return Err(BadParameters);
      }
      if sha(q.wasm) != q.claimed {
        return Err(Security);
      }
      var current := LoadCurrentState();
      if current.Err? {
        return Err(current.code);
      }
      if current.value.generation != q.accept.expected {
        return Err(AccessConflict);
      }
      var sequence := FindComponentSequence(q.accept.id);
      if sequence.Done? && q.accept.sequence <= sequence.value.1 {
        return Err(AccessConflict);
      }
      if sequence.Err? && sequence.code != ItemNotFound {
        return Err(sequence.code);
      }
      var active := LoadActiveAppState(sha);
      if active.Done? {
        return Done(if active.value.0 == 0 then 1 else 0);
      }
      return if active.code == ItemNotFound || active.code == CorruptObject then Done(0) else Err(active.code);
    }

    /** twep_app_commit. */
    method AppCommit(sha: Sha, q: AppRequest, staging: Fault, publish: Fault) returns (r: Result<u64>)
      modifies this
      ensures Reply(objects, r) == CommitApp(sha, old(objects), q, staging, publish)
    {
      hide PrepareApp, A.ParseApp, A.EncodeApp, A.ReadHeader, Commit, A.IsAppId, A.WellFormed;
      var checked := CheckAppCommit(sha, q);
      if checked.Err? {
        return Err(checked.code);
      }
      var target, hash := checked.value, sha(q.wasm);
      PreparedAppIsWellFormed(sha, objects, q);
      var staged := A.AppRecord(q.accept.expected + 1, q.accept.sequence, q.accept.id, q.wasm);
      var buffer := A.BuildRecord(staged, hash);
      var record := buffer[..];
      assert record == A.EncodeApp(sha, staged);
      var ok := WriteSlot(App(target), record, staging);
      if !ok {
        return Err(FaultCode(staging));
      }
      if staging == ReopenFails {
        return Err(CorruptObject);
      }
      A.AppRoundTrip(sha, staged);
      var back := ReadAppSlot(sha, target);
      if !back.StagedApp? || back.raw != record {
        return Err(CorruptObject);
      }
      r := AcceptanceCommit(q.accept, publish);
    }
  }

  lemma StagedIdIsNotEmpty(sha: Sha, store: Store, i: slot)
    ensures var v := ViewApp(sha, store, i); v.StagedApp? ==> v.record.id != []
  {
    hide A.ReadHeader;
  }
}

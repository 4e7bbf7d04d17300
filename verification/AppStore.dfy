/** The two application slots, shared by every application id. */
module AppStore {
  import opened Bytes
  import opened AcceptanceRecord
  import opened AcceptanceUpdate
  import opened AcceptanceStore
  import opened Tee
  import A = AppRecord
  import opened CatalogStore

  /** An unusable slot still shows the generation in its header, 0 if it has none. */
  datatype AppView = NoApp | BadApp(generation: u64) | StagedApp(record: A.AppRecord, raw: bytes)

  function ViewApp(sha: Sha, store: Store, i: slot): AppView {
    var r := ReadObject(store, App(i), A.MAX_RECORD);
    if r == Err(ItemNotFound) then NoApp
    else if r.Err? then BadApp(0)
    else
      var p := A.ParseApp(sha, r.value);
      if p.Done? then StagedApp(p.value, r.value)
      else if |r.value| < A.HEADER || r.value[..8] != A.MAGIC then BadApp(0)
      else BadApp(A.ReadHeader(r.value).generation)
  }

  function Generation(v: AppView): u64 {
    match v case NoApp => 0 case BadApp(g) => g case StagedApp(r, _) => r.generation
  }

  /** The record's sequence is the accepted one for its id, at a generation that has been reached. */
  predicate Qualifies(v: AppView, cur: Current) {
    v.StagedApp? && v.record.id in AsMap(cur.components) && AsMap(cur.components)[v.record.id] == v.record.sequence
    && cur.generation >= v.record.generation
  }

  function LoadActiveApp(sha: Sha, store: Store): Result<(slot, A.AppRecord)> {
    var a, b := ViewApp(sha, store, 0), ViewApp(sha, store, 1);
    var cur := LoadCurrent(store);
    if cur.Err? && (a.StagedApp? || b.StagedApp?) then Err(cur.code)
    else
      var qa, qb := cur.Done? && Qualifies(a, cur.value), cur.Done? && Qualifies(b, cur.value);
      if !qa && !qb then Err(if a.NoApp? && b.NoApp? then ItemNotFound else CorruptObject)
      else if Generation(a) == Generation(b) && !a.NoApp? && !b.NoApp? && a != b then Err(Security)
      else if qa && (qb ==> a.record.generation >= b.record.generation) then Done((0, a.record))
      else Done((1, b.record))
  }

  datatype AppRequest = AppRequest(accept: Accept, wasm: bytes, claimed: digest)

  function PrepareApp(sha: Sha, store: Store, q: AppRequest): Result<slot> {
    if !A.IsAppId(q.accept.id) || q.accept.sequence == 0 || q.wasm == [] || |q.wasm| > A.MAX_APP
       || q.accept.expected == U64_MAX then Err(BadParameters)
    else if sha(q.wasm) != q.claimed then Err(Security)
    else
      var cur := LoadCurrent(store);
      if cur.Err? then Err(cur.code)
      else if cur.value.generation != q.accept.expected then Err(AccessConflict)
      else
        var r := ComponentSequence(store, q.accept.id);
        if r.Done? && q.accept.sequence <= r.value.1 then Err(AccessConflict)
        else if r.Err? && r.code != ItemNotFound then Err(r.code)
        else
          var active := LoadActiveApp(sha, store);
          if active.Done? then Done(if active.value.0 == 0 then 1 else 0)
          else if active.code == ItemNotFound || active.code == CorruptObject then Done(0)
          else Err(active.code)
  }

  function StagedAppRecord(q: AppRequest): A.AppRecord
    requires q.accept.expected < U64_MAX
  {
    A.AppRecord(q.accept.expected + 1, q.accept.sequence, q.accept.id, q.wasm)
  }

  lemma PreparedAppIsWellFormed(sha: Sha, store: Store, q: AppRequest)
    requires PrepareApp(sha, store, q).Done?
    ensures q.accept.expected < U64_MAX && A.WellFormed(StagedAppRecord(q)) && |q.accept.id| <= 270
  {
    A.AppIdLength(q.accept.id);
  }

  function StageApp(sha: Sha, store: Store, q: AppRequest, staging: Fault): Store
    requires PrepareApp(sha, store, q).Done?
  {
    PreparedAppIsWellFormed(sha, store, q);
    WriteObject(store, App(PrepareApp(sha, store, q).value), A.EncodeApp(sha, StagedAppRecord(q)), staging)
  }

  function CommitApp(sha: Sha, store: Store, q: AppRequest, staging: Fault, publish: Fault): Reply {
    var p := PrepareApp(sha, store, q);
    if p.Err? then Reply(store, Err(p.code))
    else
      var staged := StageApp(sha, store, q, staging);
      if staging != NoFault then Reply(staged, Err(FaultCode(staging))) else Commit(staged, q.accept, publish)
  }

  // ----- the invariant -----

  /** The acceptance in force does not name this record. */
  predicate Unpublished(r: A.AppRecord, accepted: map<bytes, u64>) {
    r.id in accepted ==> accepted[r.id] != r.sequence
  }

  predicate AppAt(sha: Sha, store: Store, r: A.AppRecord, accepted: map<bytes, u64>, a: slot) {
    var v, other := ViewApp(sha, store, a), ViewApp(sha, store, 1 - a);
    v.StagedApp? && v.record == r && Generation(other) != r.generation
    && (other.StagedApp? && other.record.generation > r.generation ==> Unpublished(other.record, accepted))
  }

  /** Records are staged for the next generation at most. */
  predicate StagedInTime(sha: Sha, store: Store, generation: nat) {
    forall i: slot :: ViewApp(sha, store, i).StagedApp? ==> ViewApp(sha, store, i).record.generation <= generation + 1
  }

  predicate AppInv(sha: Sha, store: Store, generation: nat, accepted: map<bytes, u64>, published: Option<A.AppRecord>) {
    StagedInTime(sha, store, generation) &&
    match published
    case None =>
      var v := ViewApp(sha, store, 0);
      ViewApp(sha, store, 1).NoApp? && (v.StagedApp? ==> Unpublished(v.record, accepted))
    case Some(r) =>
      0 < r.generation <= generation && r.id in accepted && accepted[r.id] == r.sequence
      && (AppAt(sha, store, r, accepted, 0) || AppAt(sha, store, r, accepted, 1))
  }

  predicate AppInvNow(sha: Sha, store: Store, published: Option<A.AppRecord>)
    requires LoadCurrent(store).Done?
  {
    AppInv(sha, store, LoadCurrent(store).value.generation, Accepted(store), published)
  }

  lemma ActiveAppIsPublished(sha: Sha, store: Store, published: Option<A.AppRecord>)
    requires LoadCurrent(store).Done? && AppInvNow(sha, store, published)
    ensures match published
            case None =>
              LoadActiveApp(sha, store)
              == Err(if ViewApp(sha, store, 0).NoApp? then ItemNotFound else CorruptObject)
            case Some(r) =>
              exists a: slot :: LoadActiveApp(sha, store) == Done((a, r)) && AppAt(sha, store, r, Accepted(store), a)
  {
    hide LoadCurrent, ViewApp, AsMap;
    if published.Some? {
      var a := if AppAt(sha, store, published.value, Accepted(store), 0) then 0 else 1;
      assert LoadActiveApp(sha, store) == Done((a, published.value));
    }
  }

  lemma AppInvFrame(sha: Sha, store: Store, after: Store, g: nat, g': nat, accepted: map<bytes, u64>,
                    accepted': map<bytes, u64>, published: Option<A.AppRecord>)
    requires AppInv(sha, store, g, accepted, published) && g <= g'
    requires SameAt(store, after, App(0)) && SameAt(store, after, App(1))
    requires forall id :: A.IsAppId(id) ==> (id in accepted' <==> id in accepted)
    requires forall id :: A.IsAppId(id) && id in accepted ==> accepted'[id] == accepted[id]
    ensures AppInv(sha, after, g', accepted', published)
  {
    hide ViewApp, A.IsAppId;
    ViewAppFrame(sha, store, after, 0);
    ViewAppFrame(sha, store, after, 1);
  }

  lemma ViewAppFrame(sha: Sha, store: Store, after: Store, i: slot)
    requires SameAt(store, after, App(i))
    ensures ViewApp(sha, after, i) == ViewApp(sha, store, i)
    ensures var v := ViewApp(sha, store, i); v.StagedApp? ==> A.WellFormed(v.record)
  {
    hide A.ParseApp, A.ReadHeader;
  }

  lemma StagedAppView(sha: Sha, store: Store, i: slot, r: A.AppRecord, staging: Fault)
    requires A.WellFormed(r) && |r.id| <= 270
    ensures var raw := A.EncodeApp(sha, r); var after := WriteObject(store, App(i), raw, staging);
            ViewApp(sha, after, 1 - i) == ViewApp(sha, store, 1 - i)
            && ViewApp(sha, after, i) == match staging
                                         case CreateFails => ViewApp(sha, store, i)
                                         case CutAfterCreate => BadApp(0)
                                         case WriteFails => NoApp
                                         case _ => StagedApp(r, raw)
  {
    hide A.EncodeApp, A.ParseApp, A.ReadHeader;
    A.AppRoundTrip(sha, r);
  }

  /** An unpublished staged application is never selected, however its staging ended. */
  lemma AppStagingIsInvisible(sha: Sha, store: Store, q: AppRequest, staging: Fault, published: Option<A.AppRecord>)
    requires LoadCurrent(store).Done? && AppInvNow(sha, store, published)
    requires PrepareApp(sha, store, q).Done?
    ensures AppInv(sha, StageApp(sha, store, q, staging), LoadCurrent(store).value.generation, Accepted(store), published)
  {
    hide LoadCurrent, ViewApp, AsMap, A.EncodeApp, A.IsAppId, LoadActiveApp;
    PreparedAppIsWellFormed(sha, store, q);
    ActiveAppIsPublished(sha, store, published);
    StagedAppView(sha, store, PrepareApp(sha, store, q).value, StagedAppRecord(q), staging);
  }

  lemma PublishingApp(sha: Sha, store: Store, q: AppRequest, accepted': map<bytes, u64>, published: Option<A.AppRecord>)
    requires LoadCurrent(store).Done? && AppInvNow(sha, store, published)
    requires PrepareApp(sha, store, q).Done?
    requires accepted' == Accepted(store)[q.accept.id := q.accept.sequence]
    ensures q.accept.expected < U64_MAX
    ensures AppInv(sha, StageApp(sha, store, q, NoFault), q.accept.expected + 1, accepted', Some(StagedAppRecord(q)))
  {
    hide LoadCurrent, ViewApp, AsMap, A.EncodeApp, A.IsAppId, LoadActiveApp;
    PreparedAppIsWellFormed(sha, store, q);
    ActiveAppIsPublished(sha, store, published);
    StagedAppView(sha, store, PrepareApp(sha, store, q).value, StagedAppRecord(q), NoFault);
  }
}

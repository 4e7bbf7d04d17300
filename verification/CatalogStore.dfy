/**
 * The two catalog slots. A record is staged in the inactive slot and becomes visible only when the
 * acceptance slot that names its sequence is published.
 */
module CatalogStore {
  import opened Bytes
  import opened AcceptanceRecord
  import opened AcceptanceUpdate
  import opened AcceptanceStore
  import opened Tee
  import C = CatalogRecord

  type Sha = bytes -> digest

  datatype CatalogView = Missing | Unusable | Later | Staged(record: C.CatalogRecord)

  function ViewCatalog(sha: Sha, store: Store, i: slot): CatalogView {
    var r := ReadObject(store, Catalog(i), C.MAX_RECORD);
    if r == Err(ItemNotFound) then Missing
    else if r.Err? then Unusable
    else match C.ParseCatalog(sha, r.value)
      case Valid(record) => Staged(record)
      case Malformed => Unusable
      case Unsupported => Later
  }

  predicate Matches(v: CatalogView, accepted: nat) { v.Staged? && v.record.sequence == accepted }

  function LoadActiveCatalog(sha: Sha, store: Store): Result<(slot, C.CatalogRecord)> {
    var r := ComponentSequence(store, C.DEFAULT_ID);
    if r.Err? then Err(r.code)
    else
      var a, b := ViewCatalog(sha, store, 0), ViewCatalog(sha, store, 1);
      var ma, mb := Matches(a, r.value.1), Matches(b, r.value.1);
      if a.Later? || b.Later? then Err(NotSupported)
      else if !ma && !mb then Err(if a.Missing? && b.Missing? then ItemNotFound else CorruptObject)
      else if ma && mb && a.record.catalog != b.record.catalog then Err(Security)
      else if ma && (mb ==> a.record.generation >= b.record.generation) then Done((0, a.record))
      else Done((1, b.record))
  }

  datatype CatalogRequest = CatalogRequest(accept: Accept, catalog: blob, claimed: digest)

  /** The checks before staging, and the slot to stage in. */
  function PrepareCatalog(sha: Sha, store: Store, q: CatalogRequest): Result<slot> {
    if q.accept.id != C.DEFAULT_ID || q.accept.sequence == 0 || q.catalog == [] || |q.catalog| > C.MAX_PAYLOAD
       || q.accept.expected == U64_MAX then Err(BadParameters)
    else if sha(q.catalog) != q.claimed then Err(Security)
    else
      var cur := LoadCurrent(store);
      if cur.Err? then Err(cur.code)
      else if cur.value.generation != q.accept.expected then Err(AccessConflict)
      else
        var r := ComponentSequence(store, C.DEFAULT_ID);
        if r.Done? && q.accept.sequence <= r.value.1 then Err(AccessConflict)
        else if r.Done? then
          var active := LoadActiveCatalog(sha, store);
          if active.Err? then Err(active.code) else Done(if active.value.0 == 0 then 1 else 0)
        else if r.code == ItemNotFound then Done(0)
        else Err(r.code)
  }

  function StagedRecord(q: CatalogRequest): C.CatalogRecord
    requires q.accept.expected < U64_MAX
  {
    C.CatalogRecord(q.accept.expected + 1, q.accept.sequence, q.catalog)
  }

  function Stage(sha: Sha, store: Store, q: CatalogRequest, staging: Fault): Store
    requires PrepareCatalog(sha, store, q).Done?
  {
    WriteObject(store, Catalog(PrepareCatalog(sha, store, q).value), C.EncodeCatalog(sha, StagedRecord(q)), staging)
  }

  function CommitCatalog(sha: Sha, store: Store, q: CatalogRequest, staging: Fault, publish: Fault): Reply {
    var p := PrepareCatalog(sha, store, q);
    if p.Err? then Reply(store, Err(p.code))
    else
      var staged := Stage(sha, store, q, staging);
      if staging != NoFault then Reply(staged, Err(FaultCode(staging))) else Commit(staged, q.accept, publish)
  }

  // ----- the invariant -----

  /** Slot `a` holds the published record and the other slot can never be mistaken for it. */
  predicate CatalogAt(sha: Sha, store: Store, r: C.CatalogRecord, a: slot) {
    var other := ViewCatalog(sha, store, 1 - a);
    ViewCatalog(sha, store, a) == Staged(r) && !other.Later? && !Matches(other, r.sequence)
  }

  predicate CatalogInv(sha: Sha, store: Store, accepted: map<bytes, u64>, published: Option<C.CatalogRecord>) {
    match published
    case None =>
      ViewCatalog(sha, store, 1).Missing? && !ViewCatalog(sha, store, 0).Later?
      && (C.DEFAULT_ID in accepted ==> !Matches(ViewCatalog(sha, store, 0), accepted[C.DEFAULT_ID]))
    case Some(r) =>
      C.DEFAULT_ID in accepted && accepted[C.DEFAULT_ID] == r.sequence
      && (CatalogAt(sha, store, r, 0) || CatalogAt(sha, store, r, 1))
  }

  function Accepted(store: Store): map<bytes, u64>
    requires LoadCurrent(store).Done?
  {
    AsMap(LoadCurrent(store).value.components)
  }

  /** Under the invariant the active catalog is the published one, and nothing else can be read. */
  lemma ActiveCatalogIsPublished(sha: Sha, store: Store, published: Option<C.CatalogRecord>)
    requires LoadCurrent(store).Done? && CatalogInv(sha, store, Accepted(store), published)
    ensures match published
            case None =>
              LoadActiveCatalog(sha, store)
              == Err(if C.DEFAULT_ID in Accepted(store) && !ViewCatalog(sha, store, 0).Missing? then CorruptObject
                     else ItemNotFound)
            case Some(r) => exists a: slot :: LoadActiveCatalog(sha, store) == Done((a, r)) && CatalogAt(sha, store, r, a)
  {
    hide LoadCurrent, ViewCatalog, AsMap;
    assert C.DEFAULT_ID[0] == 0x82;
    if published.Some? {
      var a := if CatalogAt(sha, store, published.value, 0) then 0 else 1;
      assert LoadActiveCatalog(sha, store) == Done((a, published.value));
    }
  }

  lemma ViewCatalogFrame(sha: Sha, store: Store, after: Store, i: slot)
    requires SameAt(store, after, Catalog(i))
    ensures ViewCatalog(sha, after, i) == ViewCatalog(sha, store, i)
  {
  }

  lemma CatalogInvFrame(sha: Sha, store: Store, after: Store, accepted: map<bytes, u64>, accepted': map<bytes, u64>,
                        published: Option<C.CatalogRecord>)
    requires CatalogInv(sha, store, accepted, published)
    requires SameAt(store, after, Catalog(0)) && SameAt(store, after, Catalog(1))
    requires C.DEFAULT_ID in accepted' <==> C.DEFAULT_ID in accepted
    requires C.DEFAULT_ID in accepted ==> accepted'[C.DEFAULT_ID] == accepted[C.DEFAULT_ID]
    ensures CatalogInv(sha, after, accepted', published)
  {
    hide ViewCatalog;
    ViewCatalogFrame(sha, store, after, 0);
    ViewCatalogFrame(sha, store, after, 1);
  }

  lemma StagedView(sha: Sha, store: Store, i: slot, r: C.CatalogRecord, staging: Fault)
    requires C.WellFormed(r)
    ensures var after := WriteObject(store, Catalog(i), C.EncodeCatalog(sha, r), staging);
            ViewCatalog(sha, after, 1 - i) == ViewCatalog(sha, store, 1 - i)
            && ViewCatalog(sha, after, i) == match staging
                                             case CreateFails => ViewCatalog(sha, store, i)
                                             case CutAfterCreate => Unusable
                                             case WriteFails => Missing
                                             case _ => Staged(r)
  {
    hide C.EncodeCatalog, C.ParseCatalog;
    C.CatalogFits(sha, r);
    C.ParseCatalogIff(sha, C.EncodeCatalog(sha, r), r);
  }

  /** Staging, complete or interrupted, changes nothing that is visible. */
  lemma StagingIsInvisible(sha: Sha, store: Store, q: CatalogRequest, staging: Fault, published: Option<C.CatalogRecord>)
    requires LoadCurrent(store).Done? && CatalogInv(sha, store, Accepted(store), published)
    requires PrepareCatalog(sha, store, q).Done?
    ensures CatalogInv(sha, Stage(sha, store, q, staging), Accepted(store), published)
  {
    hide LoadCurrent, ViewCatalog, AsMap, C.EncodeCatalog, LoadActiveCatalog;
    assert C.DEFAULT_ID[0] == 0x82;
    ActiveCatalogIsPublished(sha, store, published);
    StagedView(sha, store, PrepareCatalog(sha, store, q).value, StagedRecord(q), staging);
  }

  /** Publishing a completely staged record makes it, and only it, the active catalog. */
  lemma PublishingCatalog(sha: Sha, store: Store, q: CatalogRequest, accepted': map<bytes, u64>,
                          published: Option<C.CatalogRecord>)
    requires LoadCurrent(store).Done? && CatalogInv(sha, store, Accepted(store), published)
    requires PrepareCatalog(sha, store, q).Done?
    requires accepted' == Accepted(store)[C.DEFAULT_ID := q.accept.sequence]
    ensures CatalogInv(sha, Stage(sha, store, q, NoFault), accepted', Some(StagedRecord(q)))
  {
    hide LoadCurrent, ViewCatalog, AsMap, C.EncodeCatalog, LoadActiveCatalog;
    assert C.DEFAULT_ID[0] == 0x82;
    ActiveCatalogIsPublished(sha, store, published);
    StagedView(sha, store, PrepareCatalog(sha, store, q).value, StagedRecord(q), NoFault);
  }
}

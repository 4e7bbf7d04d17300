/** Concrete runs on a new device that show the excluded cases to occur. */
module Scenarios {
  import opened Bytes
  import opened CborHead
  import opened StrictCbor
  import opened AcceptanceRecord
  import opened AcceptanceUpdate
  import opened AcceptanceStore
  import opened CatalogStore
  import opened AppStore
  import opened ProtectedState
  import opened Atomicity
  import opened Tee
  import A = AppRecord
  import C = CatalogRecord

  // ----- small states accept small commits -----

  predicate Short(cs: seq<Component>) {
    forall i :: 0 <= i < |cs| ==> |cs[i].id| <= 300
  }

  lemma {:induction false} ShortEncodes(cs: seq<Component>)
    requires Short(cs)
    ensures |EncodeComponents(cs)| <= 318 * |cs|
  {
    hide HeadBytes, Bstr;
    if cs == [] {
      EncodeNone();
    } else {
      ShortEncodes(cs[1..]);
    }
  }

  lemma {:induction false} ShortUpsert(cs: seq<Component>, c: Component)
    requires Short(cs) && |c.id| <= 300
    ensures Short(Upsert(cs, c))
  {
    hide LengthFirstLess;
    if cs != [] {
      ShortUpsert(cs[1..], c);
    }
  }

  /** At the expected generation, a fresh digest and a raised sequence are all a small commit needs. */
  lemma SmallCommitPrepares(store: Store, a: Accept)
    requires var r := LoadCurrent(store);
             r.Done? && r.value.generation == a.expected < U64_MAX && r.value.digest != Some(a.digest)
             && |r.value.components| <= 2 && Short(r.value.components)
             && (a.id in AsMap(r.value.components) ==> AsMap(r.value.components)[a.id] < a.sequence)
    requires 0 < |a.id| <= 300 && a.sequence > 0
    ensures Prepare(store, a).Done?
  {
    hide LoadCurrent, AsMap, Upsert, EncodeRecord, EncodeComponents, Short;
    var cs := LoadCurrent(store).value.components;
    var c := Component(a.id, a.sequence);
    ShortUpsert(cs, c);
    ShortEncodes(Upsert(cs, c));
    RecordSize(Record(a.expected + 1, Upsert(cs, c), a.digest));
  }

  // ----- the first acceptance -----

  lemma NewDevice()
    ensures LoadCurrent(map[]) == Done(Current(0, [], None, -1)) && CatalogFresh(map[]) && AppFresh(map[])
    ensures AsMap([]) == map[]
  {
    hide ParseSlot, ParseComponents, A.IsAppId;
  }

  /** Power lost between creating and writing the first slot: the device has no state that loads. */
  lemma FirstCommitCut(sha: Sha, d: digest)
    ensures var a := Accept(d, [1], 1, 0); var cut := [Plain(a, CutAfterCreate)];
            CutAtGenerationZero(map[], a, CutAfterCreate) && !Survives(sha, map[], cut)
            && LoadCurrent(Run(sha, map[], cut)) == Err(CorruptObject)
  {
    hide LoadCurrent, Prepare;
    var a := Accept(d, [1], 1, 0);
    var cut := [Plain(a, CutAfterCreate)];
    NewDevice();
    SmallCommitPrepares(map[], a);
    assert Prepare(map[], a).value.0 == LoadCurrent(map[]).value by {
      PreparedReadsBack(map[], a);
    }
    assert cut[..0] == [];
    assert CutsFirstPublication(sha, Run(sha, map[], cut[..0]), cut[0]);
    LoadsIffSurvives(sha, map[], cut);
  }

  lemma NoCut(sha: Sha, store: Store, cmd: Command)
    requires cmd.publish != CutAfterCreate
    ensures !CutsFirstPublication(sha, store, cmd)
  {
    hide AtPublication, Prepare;
  }

  // ----- a staged application that was never published -----

  /** What staging alone leaves: the published application, if any, and the staged record in its slot. */
  lemma StagedBeside(sha: Sha, store: Store, q: AppRequest, published: Option<A.AppRecord>)
    requires AppHolds(sha, store, published) && PrepareApp(sha, store, q).Done?
    ensures var s := Step(sha, store, PutApp(q, NoFault, CreateFails)).store;
            AppHolds(sha, s, published) && LoadCurrent(s) == LoadCurrent(store) && q.accept.expected < U64_MAX
            && ViewApp(sha, s, PrepareApp(sha, store, q).value).StagedApp?
            && ViewApp(sha, s, PrepareApp(sha, store, q).value).record == StagedAppRecord(q)
  {
    hide LoadCurrent, AppInv, PrepareApp, A.EncodeApp, ViewApp, Prepare, CutAtGenerationZero, A.WellFormed, A.IsAppId;
    var cmd := PutApp(q, NoFault, CreateFails);
    PreparedAppIsWellFormed(sha, store, q);
    StagedAppView(sha, store, PrepareApp(sha, store, q).value, StagedAppRecord(q), NoFault);
    assert Step(sha, store, cmd).store == StageApp(sha, store, q, NoFault);
    NoCut(sha, store, cmd);
    StepConsistency(sha, store, cmd);
    AppStep(sha, store, cmd, Published(None, published));
  }

  /** A plain acceptance of a staged application's id and sequence makes it active although it was never published. */
  lemma StagedSurfaces(sha: Sha, store: Store, q: AppRequest, app: A.AppRecord)
    requires AppHolds(sha, store, Some(app)) && PrepareApp(sha, store, q).Done? && q.accept.id != app.id
    requires Prepare(Step(sha, store, PutApp(q, NoFault, CreateFails)).store, q.accept).Done?
    ensures var s := Step(sha, store, PutApp(q, NoFault, CreateFails)).store;
            AppHolds(sha, s, Some(app)) && q.accept.expected < U64_MAX
            && ShowsApp(sha, Step(sha, s, Plain(q.accept, NoFault)).store, Some(StagedAppRecord(q)))
  {
    hide LoadCurrent, AppInv, PrepareApp, ViewApp, Prepare, LoadActiveApp, AsMap, AppAt, Commit, CommitApp, CutsFirstPublication;
    var s := Step(sha, store, PutApp(q, NoFault, CreateFails)).store;
    var cmd := Plain(q.accept, NoFault);
    var after := Step(sha, s, cmd).store;
    StagedBeside(sha, store, q, Some(app));
    NoCut(sha, s, cmd);
    PlainStep(sha, s, cmd);
    ViewAppFrame(sha, s, after, 0);
    ViewAppFrame(sha, s, after, 1);
    var a := WhereIsApp(sha, s, app);
    AppSits(sha, s, app, Accepted(s), a);
    assert PrepareApp(sha, store, q).value == 1 - a;
    SelectedApp(sha, s, after, q.accept, app, a);
  }

  /** The same before anything is published. */
  lemma StagedEmerges(sha: Sha, store: Store, q: AppRequest)
    requires AppHolds(sha, store, None) && PrepareApp(sha, store, q) == Done(0)
    requires Prepare(Step(sha, store, PutApp(q, NoFault, CreateFails)).store, q.accept).Done?
    ensures var s := Step(sha, store, PutApp(q, NoFault, CreateFails)).store;
            AppHolds(sha, s, None) && q.accept.expected < U64_MAX
            && ShowsApp(sha, Step(sha, s, Plain(q.accept, NoFault)).store, Some(StagedAppRecord(q)))
  {
    hide LoadCurrent, AppInv, PrepareApp, ViewApp, Prepare, LoadActiveApp, Commit, CommitApp;
    StagedBeside(sha, store, q, None);
    PlainShowsAppIff(sha, Step(sha, store, PutApp(q, NoFault, CreateFails)).store, Plain(q.accept, NoFault));
  }

  lemma AppSits(sha: Sha, store: Store, app: A.AppRecord, accepted: map<bytes, u64>, a: slot)
    requires AppAt(sha, store, app, accepted, a)
    ensures ViewApp(sha, store, a).StagedApp? && ViewApp(sha, store, a).record == app
  {
    hide ViewApp;
  }

  function NewApp(sha: Sha, d: digest, command: blob, expected: u64): AppRequest
    requires A.IsCommand(command)
  {
    AppRequest(Accept(d, A.AppId(command), 1, expected), [0], sha([0]))
  }

  const FIRST: blob := [0x61]
  const SECOND: blob := [0x62]

  lemma TwoIds()
    ensures A.IsCommand(FIRST) && A.IsCommand(SECOND)
    ensures A.IsAppId(A.AppId(FIRST)) && A.IsAppId(A.AppId(SECOND)) && A.AppId(FIRST) != A.AppId(SECOND)
    ensures 0 < |A.AppId(FIRST)| <= 270 && 0 < |A.AppId(SECOND)| <= 270
  {
    A.AppIdPasses(FIRST);
    A.AppIdPasses(SECOND);
    A.AppIdLength(A.AppId(FIRST));
    A.AppIdLength(A.AppId(SECOND));
    A.AppIdShape(FIRST);
    A.AppIdShape(SECOND);
    hide A.AppId;
    assert A.AppId(FIRST)[14] == 0x61 && A.AppId(SECOND)[14] == 0x62;
  }

  lemma FirstAppPrepares(sha: Sha, d: digest)
    ensures PrepareApp(sha, map[], NewApp(sha, d, FIRST, 0)) == Done(0)
  {
    hide LoadCurrent, A.AppId, A.IsAppId, LoadActiveApp;
    TwoIds();
    NewDevice();
    NothingStaged(sha);
  }

  /** The first application of a new device is published at generation 1. */
  lemma FirstAppPublished(sha: Sha, d: digest)
    ensures var q := NewApp(sha, d, FIRST, 0); var s := Step(sha, map[], PutApp(q, NoFault, NoFault)).store;
            AppHolds(sha, s, Some(StagedAppRecord(q)))
            && LoadCurrent(s) == Done(Current(1, [Component(q.accept.id, 1)], Some(d), 0))
  {
    hide LoadCurrent, AppHolds, Prepare, AsMap, ViewApp, A.EncodeApp, A.AppId, A.IsAppId, PrepareApp;
    var q := NewApp(sha, d, FIRST, 0);
    var cmd := PutApp(q, NoFault, NoFault);
    TwoIds();
    NewDevice();
    FirstAppPrepares(sha, d);
    var staged := StageApp(sha, map[], q, NoFault);
    LoadFrame(map[], staged);
    SmallCommitPrepares(staged, q.accept);
    assert Effective(sha, map[], cmd);
    NoCut(sha, map[], cmd);
    StepConsistency(sha, map[], cmd);
    FreshHoldsApp(sha, map[]);
    AppStep(sha, map[], cmd, Published(None, None));
  }

  /** On a new device, an application whose publication failed is made active by a plain acceptance. */
  lemma UnpublishedAppEmerges(sha: Sha, d: digest)
    ensures var q := NewApp(sha, d, FIRST, 0); var s := Step(sha, map[], PutApp(q, NoFault, CreateFails)).store;
            AppHolds(sha, s, None) && ShowsApp(sha, Step(sha, s, Plain(q.accept, NoFault)).store, Some(StagedAppRecord(q)))
  {
    hide LoadCurrent, AppHolds, Prepare, A.AppId, A.IsAppId, PrepareApp, ShowsApp, Step;
    var q := NewApp(sha, d, FIRST, 0);
    TwoIds();
    NewDevice();
    FreshHoldsApp(sha, map[]);
    FirstAppPrepares(sha, d);
    StagedBeside(sha, map[], q, None);
    SmallCommitPrepares(Step(sha, map[], PutApp(q, NoFault, CreateFails)).store, q.accept);
    StagedEmerges(sha, map[], q);
  }

  lemma NothingStaged(sha: Sha)
    ensures LoadActiveApp(sha, map[]) == Err(ItemNotFound)
    ensures forall id: bytes :: id != [] ==> ComponentSequence(map[], id) == Err(ItemNotFound)
  {
    hide LoadCurrent;
    NewDevice();
  }

  /**
   * On a new device the first application is published and the second is staged but its publication fails; a plain
   * acceptance of the second's id and sequence then makes it the active application.
   */
  lemma NeverPublishedBecomesActive(sha: Sha, d: digest, e: digest)
    requires d != e
    ensures var first, second := NewApp(sha, d, FIRST, 0), NewApp(sha, e, SECOND, 1);
            var s := Step(sha, Step(sha, map[], PutApp(first, NoFault, NoFault)).store, PutApp(second, NoFault, CreateFails)).store;
            AppHolds(sha, s, Some(StagedAppRecord(first)))
            && ShowsApp(sha, Step(sha, s, Plain(second.accept, NoFault)).store, Some(StagedAppRecord(second)))
  {
    hide LoadCurrent, AppHolds, Prepare, LoadActiveApp, ViewApp, A.EncodeApp, A.AppId, A.IsAppId, Step;
    var first, second := NewApp(sha, d, FIRST, 0), NewApp(sha, e, SECOND, 1);
    TwoIds();
    FirstAppPublished(sha, d);
    var s1 := Step(sha, map[], PutApp(first, NoFault, NoFault)).store;
    HoldsShowsApp(sha, s1, Some(StagedAppRecord(first)));
    OneComponent(first.accept.id, second.accept.id);
    assert PrepareApp(sha, s1, second).Done?;
    StagedBeside(sha, s1, second, Some(StagedAppRecord(first)));
    SmallCommitPrepares(Step(sha, s1, PutApp(second, NoFault, CreateFails)).store, second.accept);
    StagedSurfaces(sha, s1, second, StagedAppRecord(first));
  }

  lemma OneComponent(id: blob, other: blob)
    requires id != other
    ensures other !in AsMap([Component(id, 1)]) && Short([Component(id, 1)]) == (|id| <= 300)
  {
    assert [Component(id, 1)][1..] == [];
    assert [Component(id, 1)][0].id == id;
  }

  // ----- the same for catalogs -----

  function NewCatalog(sha: Sha, d: digest): CatalogRequest { CatalogRequest(Accept(d, C.DEFAULT_ID, 1, 0), [0], sha([0])) }

  lemma NewCatalogPrepares(sha: Sha, d: digest)
    ensures PrepareCatalog(sha, map[], NewCatalog(sha, d)) == Done(0) && 0 < |C.DEFAULT_ID| <= 300
  {
    hide LoadCurrent, LoadActiveApp;
    assert |C.DEFAULT_ID| == 25;
    NothingStaged(sha);
    NewDevice();
  }

  /** On a new device, a catalog whose publication failed is made active by a plain acceptance. */
  lemma UnpublishedCatalogEmerges(sha: Sha, d: digest)
    ensures var q := NewCatalog(sha, d); var s := Step(sha, map[], PutCatalog(q, NoFault, CreateFails)).store;
            CatalogHolds(sha, s, None)
            && ShowsCatalog(sha, Step(sha, s, Plain(q.accept, NoFault)).store, Some(StagedRecord(q)))
  {
    hide LoadCurrent, CatalogHolds, Prepare, PrepareCatalog, C.EncodeCatalog, ViewCatalog, CutAtGenerationZero, LoadActiveCatalog;
    var q := NewCatalog(sha, d);
    var cmd := PutCatalog(q, NoFault, CreateFails);
    NewCatalogPrepares(sha, d);
    NewDevice();
    FreshHoldsCatalog(sha, map[]);
    var s := Step(sha, map[], cmd).store;
    assert s == Stage(sha, map[], q, NoFault);
    StagedView(sha, map[], 0, StagedRecord(q), NoFault);
    NoCut(sha, map[], cmd);
    StepConsistency(sha, map[], cmd);
    CatalogStep(sha, map[], cmd, Published(None, None));
    SmallCommitPrepares(s, q.accept);
    PlainShowsCatalogIff(sha, s, Plain(q.accept, NoFault));
  }

  /** A published catalog is hidden by a plain acceptance of its id with a higher sequence. */
  lemma AcceptanceHidesCatalog(sha: Sha, d: digest, e: digest)
    requires d != e
    ensures var q := NewCatalog(sha, d); var s := Step(sha, map[], PutCatalog(q, NoFault, NoFault)).store;
            CatalogHolds(sha, s, Some(StagedRecord(q)))
            && !ShowsCatalog(sha, Step(sha, s, Plain(Accept(e, C.DEFAULT_ID, 2, 1), NoFault)).store, Some(StagedRecord(q)))
  {
    hide LoadCurrent, CatalogHolds, Prepare, PrepareCatalog, C.EncodeCatalog, ViewCatalog, LoadActiveCatalog, AsMap, ShowsCatalog, Commit;
    var q := NewCatalog(sha, d);
    var cmd := PutCatalog(q, NoFault, NoFault);
    NewCatalogPrepares(sha, d);
    NewDevice();
    FreshHoldsCatalog(sha, map[]);
    var staged := Stage(sha, map[], q, NoFault);
    LoadFrame(map[], staged);
    SmallCommitPrepares(staged, q.accept);
    assert Effective(sha, map[], cmd);
    NoCut(sha, map[], cmd);
    StepConsistency(sha, map[], cmd);
    CatalogStep(sha, map[], cmd, Published(None, None));
    var s := Step(sha, map[], cmd).store;
    FirstComponent(C.DEFAULT_ID);
    SmallCommitPrepares(s, Accept(e, C.DEFAULT_ID, 2, 1));
    PlainKeepsCatalogIff(sha, s, Plain(Accept(e, C.DEFAULT_ID, 2, 1), NoFault), StagedRecord(q));
  }

  lemma FirstComponent(id: blob)
    requires |id| <= 300
    ensures Upsert([], Component(id, 1)) == [Component(id, 1)] && Short([Component(id, 1)])
    ensures AsMap([Component(id, 1)]) == map[id := 1]
  {
    assert [Component(id, 1)][1..] == [];
  }
}

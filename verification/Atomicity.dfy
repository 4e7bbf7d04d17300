/**
 * Atomicity over whole runs: what is active after every step is what was last published, exactly as long as no plain
 * acceptance disturbs it.
 */
module Atomicity {
  import opened Bytes
  import opened AcceptanceUpdate
  import opened AcceptanceStore
  import opened CatalogStore
  import opened AppStore
  import opened ProtectedState
  import opened Tee
  import A = AppRecord
  import C = CatalogRecord

  // ----- what is active -----

  lemma ActiveIsAccepted(sha: Sha, store: Store)
    requires LoadCurrent(store).Done?
    ensures var r := LoadActiveCatalog(sha, store);
            r.Done? ==> C.DEFAULT_ID in Accepted(store) && r.value.1.sequence == Accepted(store)[C.DEFAULT_ID]
    ensures var r := LoadActiveApp(sha, store);
            r.Done? ==> r.value.1.id in Accepted(store) && r.value.1.sequence == Accepted(store)[r.value.1.id]
  {
    hide LoadCurrent, ViewCatalog, ViewApp, AsMap;
    assert C.DEFAULT_ID[0] == 0x82;
  }

  lemma CatalogIdIsNoAppId()
    ensures !A.IsAppId(C.DEFAULT_ID)
  {
    assert C.DEFAULT_ID[1] == 0x4f;
  }

  /** What a plain acceptance changes: the acceptance state by exactly one entry, or nothing. */
  lemma PlainStep(sha: Sha, store: Store, cmd: Command)
    requires LoadCurrent(store).Done? && cmd.Plain? && !CutsFirstPublication(sha, store, cmd)
    ensures var after := Step(sha, store, cmd).store; var a := cmd.accept;
            && SameAt(store, after, Catalog(0)) && SameAt(store, after, Catalog(1))
            && SameAt(store, after, App(0)) && SameAt(store, after, App(1))
            && LoadCurrent(after).Done?
            && if Effective(sha, store, cmd) then
                 LoadCurrent(store).value.generation == a.expected
                 && LoadCurrent(after).value.generation == a.expected + 1
                 && Accepted(after) == Accepted(store)[a.id := a.sequence]
                 && (a.id in Accepted(store) ==> Accepted(store)[a.id] < a.sequence)
               else LoadCurrent(after) == LoadCurrent(store)
  {
    hide LoadCurrent, AsMap, Commit, Effective, CutsFirstPublication, Upsert;
    StepConsistency(sha, store, cmd);
    CommitFrame(store, cmd.accept, cmd.publish);
  }

  // ----- catalogs -----

  predicate CatalogHolds(sha: Sha, store: Store, published: Option<C.CatalogRecord>) {
    LoadCurrent(store).Done? && CatalogInv(sha, store, Accepted(store), published)
  }

  /** The active catalog is the published one, or there is none. */
  predicate ShowsCatalog(sha: Sha, store: Store, published: Option<C.CatalogRecord>) {
    var r := LoadActiveCatalog(sha, store);
    if published.None? then r.Err? else r.Done? && r.value.1 == published.value
  }

  lemma HoldsShowsCatalog(sha: Sha, store: Store, published: Option<C.CatalogRecord>)
    requires CatalogHolds(sha, store, published)
    ensures ShowsCatalog(sha, store, published)
  {
    hide LoadCurrent, CatalogInv, LoadActiveCatalog;
    ActiveCatalogIsPublished(sha, store, published);
  }

  /** A plain acceptance of the catalog id that hides the published catalog or brings up a staged one. */
  predicate DisturbsCatalog(sha: Sha, store: Store, published: Option<C.CatalogRecord>, cmd: Command) {
    cmd.Plain? && Effective(sha, store, cmd) && cmd.accept.id == C.DEFAULT_ID
    && (published.Some? || Matches(ViewCatalog(sha, store, 0), cmd.accept.sequence))
  }

  /** An acceptance that takes effect leaves the published catalog active exactly when it is for another id. */
  lemma PlainKeepsCatalogIff(sha: Sha, store: Store, cmd: Command, c: C.CatalogRecord)
    requires CatalogHolds(sha, store, Some(c)) && cmd.Plain? && Effective(sha, store, cmd)
    ensures var after := Step(sha, store, cmd).store;
            && (ShowsCatalog(sha, after, Some(c)) <==> cmd.accept.id != C.DEFAULT_ID)
            && (cmd.accept.id != C.DEFAULT_ID ==> CatalogHolds(sha, after, Some(c)))
  {
    EffectiveIsNoCut(sha, store, cmd);
    hide LoadCurrent, AsMap, Step, LoadActiveCatalog, Effective, CutsFirstPublication, ViewCatalog;
    var after := Step(sha, store, cmd).store;
    PlainStep(sha, store, cmd);
    if cmd.accept.id == C.DEFAULT_ID {
      ActiveIsAccepted(sha, after);
    } else {
      CatalogInvFrame(sha, store, after, Accepted(store), Accepted(after), Some(c));
      HoldsShowsCatalog(sha, after, Some(c));
    }
  }

  /** With nothing published, an acceptance makes a catalog active exactly when it names a staged one by id and sequence. */
  lemma PlainShowsCatalogIff(sha: Sha, store: Store, cmd: Command)
    requires CatalogHolds(sha, store, None) && cmd.Plain? && Effective(sha, store, cmd)
    ensures var after := Step(sha, store, cmd).store;
            var named := cmd.accept.id == C.DEFAULT_ID && Matches(ViewCatalog(sha, store, 0), cmd.accept.sequence);
            && (LoadActiveCatalog(sha, after).Done? <==> named)
            && (named ==> LoadActiveCatalog(sha, after) == Done((0, ViewCatalog(sha, store, 0).record)))
            && (!named ==> CatalogHolds(sha, after, None))
  {
    EffectiveIsNoCut(sha, store, cmd);
    hide LoadCurrent, AsMap, Step, Effective, CutsFirstPublication, ViewCatalog;
    var after := Step(sha, store, cmd).store;
    assert C.DEFAULT_ID[0] == 0x82;
    PlainStep(sha, store, cmd);
    ViewCatalogFrame(sha, store, after, 0);
    ViewCatalogFrame(sha, store, after, 1);
  }

  lemma CatalogPrepared(sha: Sha, store: Store, q: CatalogRequest, staging: Fault)
    requires PrepareCatalog(sha, store, q).Done?
    ensures q.accept.id == C.DEFAULT_ID && q.accept.expected < U64_MAX
    ensures var staged := Stage(sha, store, q, staging);
            SameAt(store, staged, App(0)) && SameAt(store, staged, App(1))
  {
    hide C.EncodeCatalog;
  }

  lemma AppPrepared(sha: Sha, store: Store, q: AppRequest, staging: Fault)
    requires PrepareApp(sha, store, q).Done?
    ensures A.IsAppId(q.accept.id) && q.accept.expected < U64_MAX
    ensures var staged := StageApp(sha, store, q, staging);
            SameAt(store, staged, Catalog(0)) && SameAt(store, staged, Catalog(1))
  {
    hide A.EncodeApp;
  }

  lemma CatalogCommitKeepsCatalog(sha: Sha, store: Store, cmd: Command, p: Published)
    requires CatalogHolds(sha, store, p.catalog) && cmd.PutCatalog? && !CutsFirstPublication(sha, store, cmd)
    requires PrepareCatalog(sha, store, cmd.catalog).Done?
    ensures CatalogHolds(sha, Step(sha, store, cmd).store, Track(p, store, cmd, Step(sha, store, cmd).store).catalog)
  {
    hide LoadCurrent, CatalogInv, AsMap, Commit, CutsFirstPublication, TakesEffect, PrepareCatalog, Stage;
    var q, after := cmd.catalog, Step(sha, store, cmd).store;
    var staged := Stage(sha, store, q, cmd.staging);
    StepConsistency(sha, store, cmd);
    CatalogPrepared(sha, store, q, cmd.staging);
    CommitFrame(staged, q.accept, cmd.publish);
    if Effective(sha, store, cmd) {
      PublishingCatalog(sha, store, q, Accepted(after), p.catalog);
      CatalogInvFrame(sha, staged, after, Accepted(after), Accepted(after), Some(StagedRecord(q)));
    } else {
      StagingIsInvisible(sha, store, q, cmd.staging, p.catalog);
      CatalogInvFrame(sha, staged, after, Accepted(store), Accepted(after), p.catalog);
    }
  }

  lemma AppCommitKeepsCatalog(sha: Sha, store: Store, cmd: Command, published: Option<C.CatalogRecord>)
    requires CatalogHolds(sha, store, published) && cmd.PutApp? && !CutsFirstPublication(sha, store, cmd)
    requires PrepareApp(sha, store, cmd.app).Done?
    ensures CatalogHolds(sha, Step(sha, store, cmd).store, published)
  {
    hide LoadCurrent, CatalogInv, AsMap, Commit, CutsFirstPublication, TakesEffect, A.IsAppId, PrepareApp, StageApp;
    var q, after := cmd.app, Step(sha, store, cmd).store;
    StepConsistency(sha, store, cmd);
    CatalogIdIsNoAppId();
    AppPrepared(sha, store, q, cmd.staging);
    CommitFrame(StageApp(sha, store, q, cmd.staging), q.accept, cmd.publish);
    CatalogInvFrame(sha, store, after, Accepted(store), Accepted(after), published);
  }

  /** One step: undisturbed the invariant holds on, disturbed the published catalog is no longer what is active. */
  lemma CatalogStep(sha: Sha, store: Store, cmd: Command, p: Published)
    requires CatalogHolds(sha, store, p.catalog) && !CutsFirstPublication(sha, store, cmd)
    ensures var after := Step(sha, store, cmd).store; var next := Track(p, store, cmd, after).catalog;
            if DisturbsCatalog(sha, store, p.catalog, cmd) then !ShowsCatalog(sha, after, next)
            else CatalogHolds(sha, after, next)
  {
    hide LoadCurrent, CutsFirstPublication, PrepareCatalog, PrepareApp, Commit, Effective, CatalogInv, ViewCatalog, LoadActiveCatalog;
    match cmd
    case Plain(a, _) =>
      if !Effective(sha, store, cmd) {
        PlainStep(sha, store, cmd);
        CatalogInvFrame(sha, store, Step(sha, store, cmd).store, Accepted(store), Accepted(store), p.catalog);
      } else if p.catalog.Some? {
        PlainKeepsCatalogIff(sha, store, cmd, p.catalog.value);
      } else {
        PlainShowsCatalogIff(sha, store, cmd);
      }
    case PutCatalog(q, _, _) =>
      if PrepareCatalog(sha, store, q).Done? {
        CatalogCommitKeepsCatalog(sha, store, cmd, p);
      }
    case PutApp(q, _, _) =>
      if PrepareApp(sha, store, q).Done? {
        AppCommitKeepsCatalog(sha, store, cmd, p.catalog);
      }
  }

  /** No catalog object yet. */
  predicate CatalogFresh(store: Store) {
    LoadCurrent(store).Done? && Catalog(0) !in store && Catalog(1) !in store
  }

  predicate CatalogUndisturbed(sha: Sha, store: Store, cmds: seq<Command>) {
    cmds == [] ||
    (var before := cmds[..|cmds| - 1];
     CatalogUndisturbed(sha, store, before)
     && !DisturbsCatalog(sha, Run(sha, store, before), LastPublished(sha, store, before).catalog, cmds[|cmds| - 1]))
  }

  /** After every command of the run the active catalog is the one last published until then, or there is none. */
  predicate CatalogAlwaysShown(sha: Sha, store: Store, cmds: seq<Command>) {
    (cmds == [] || CatalogAlwaysShown(sha, store, cmds[..|cmds| - 1]))
    && ShowsCatalog(sha, Run(sha, store, cmds), LastPublished(sha, store, cmds).catalog)
  }

  lemma FreshHoldsCatalog(sha: Sha, store: Store)
    requires CatalogFresh(store)
    ensures CatalogHolds(sha, store, None)
  {
    hide LoadCurrent;
  }

  lemma {:induction false} RunKeepsCatalog(sha: Sha, store: Store, cmds: seq<Command>)
    requires CatalogFresh(store) && Survives(sha, store, cmds)
    ensures if CatalogUndisturbed(sha, store, cmds)
            then CatalogHolds(sha, Run(sha, store, cmds), LastPublished(sha, store, cmds).catalog)
                 && CatalogAlwaysShown(sha, store, cmds)
            else !CatalogAlwaysShown(sha, store, cmds)
    decreases |cmds|
  {
    hide LoadCurrent, CatalogHolds, ShowsCatalog, Step, Track, CutsFirstPublication, DisturbsCatalog, CatalogFresh;
    if cmds == [] {
      FreshHoldsCatalog(sha, store);
      HoldsShowsCatalog(sha, store, None);
    } else {
      var n := |cmds| - 1;
      SurvivesPrefix(sha, store, cmds, n);
      RunKeepsCatalog(sha, store, cmds[..n]);
      if CatalogUndisturbed(sha, store, cmds[..n]) {
        CatalogStep(sha, Run(sha, store, cmds[..n]), cmds[n], LastPublished(sha, store, cmds[..n]));
        if CatalogUndisturbed(sha, store, cmds) {
          HoldsShowsCatalog(sha, Run(sha, store, cmds), LastPublished(sha, store, cmds).catalog);
        }
      }
    }
  }

  /** Throughout a run the active catalog is the one last published exactly as long as no plain acceptance disturbs it. */
  lemma CatalogAtomicityIff(sha: Sha, store: Store, cmds: seq<Command>)
    requires CatalogFresh(store) && Survives(sha, store, cmds)
    ensures CatalogAlwaysShown(sha, store, cmds) <==> CatalogUndisturbed(sha, store, cmds)
  {
    RunKeepsCatalog(sha, store, cmds);
  }

  /** The catalog id is accepted through catalog commits only. */
  predicate CatalogSeparated(cmds: seq<Command>) {
    forall i :: 0 <= i < |cmds| && cmds[i].Plain? ==> cmds[i].accept.id != C.DEFAULT_ID
  }

  /** With the id kept apart and nothing published, no object stands where an accepted catalog would be looked for. */
  predicate CatalogQuiet(sha: Sha, store: Store, published: Option<C.CatalogRecord>) {
    LoadCurrent(store).Done?
    && (published.None? && C.DEFAULT_ID in Accepted(store) ==> ViewCatalog(sha, store, 0).Missing?)
  }

  lemma QuietStep(sha: Sha, store: Store, cmd: Command, p: Published)
    requires CatalogHolds(sha, store, p.catalog) && CatalogQuiet(sha, store, p.catalog) && !CutsFirstPublication(sha, store, cmd)
    requires cmd.Plain? ==> cmd.accept.id != C.DEFAULT_ID
    ensures var after := Step(sha, store, cmd).store; CatalogQuiet(sha, after, Track(p, store, cmd, after).catalog)
  {
    hide LoadCurrent, AsMap, Commit, CutsFirstPublication, PrepareCatalog, PrepareApp, StageApp, Stage, ViewCatalog, CatalogInv, A.IsAppId,
      TakesEffect, LoadActiveCatalog;
    var after := Step(sha, store, cmd).store;
    StepConsistency(sha, store, cmd);
    match cmd
    case Plain(_, _) =>
      PlainStep(sha, store, cmd);
      ViewCatalogFrame(sha, store, after, 0);
    case PutCatalog(q, _, _) =>
      if PrepareCatalog(sha, store, q).Done? {
        CatalogPrepared(sha, store, q, cmd.staging);
        if p.catalog.None? {
          PreparedIsNotAccepted(sha, store, q);
        }
      }
    case PutApp(q, _, _) =>
      if PrepareApp(sha, store, q).Done? {
        AppPrepared(sha, store, q, cmd.staging);
        CatalogIdIsNoAppId();
        CommitFrame(StageApp(sha, store, q, cmd.staging), q.accept, cmd.publish);
        ViewCatalogFrame(sha, store, after, 0);
      }
  }

  lemma PreparedIsNotAccepted(sha: Sha, store: Store, q: CatalogRequest)
    requires CatalogHolds(sha, store, None) && PrepareCatalog(sha, store, q).Done?
    ensures C.DEFAULT_ID !in Accepted(store)
  {
    hide LoadCurrent, AsMap, ViewCatalog, LoadActiveCatalog, CatalogInv;
    assert C.DEFAULT_ID[0] == 0x82;
    ActiveCatalogIsPublished(sha, store, None);
  }

  lemma {:induction false} SeparatedRun(sha: Sha, store: Store, cmds: seq<Command>)
    requires CatalogFresh(store) && Survives(sha, store, cmds) && CatalogSeparated(cmds)
    ensures CatalogUndisturbed(sha, store, cmds)
    ensures CatalogQuiet(sha, Run(sha, store, cmds), LastPublished(sha, store, cmds).catalog)
    decreases |cmds|
  {
    hide LoadCurrent, CatalogHolds, CatalogQuiet, Step, Track, CutsFirstPublication, CatalogFresh, Effective;
    if cmds == [] {
      FreshIsQuiet(sha, store);
    } else {
      var n := |cmds| - 1;
      SurvivesPrefix(sha, store, cmds, n);
      SeparatedRun(sha, store, cmds[..n]);
      RunKeepsCatalog(sha, store, cmds[..n]);
      QuietStep(sha, Run(sha, store, cmds[..n]), cmds[n], LastPublished(sha, store, cmds[..n]));
    }
  }

  lemma FreshIsQuiet(sha: Sha, store: Store)
    requires CatalogFresh(store)
    ensures CatalogQuiet(sha, store, None)
  {
    hide LoadCurrent;
  }

  /**
   * Catalog atomicity: when the catalog id is accepted through catalog commits only, the active catalog after any run is
   * exactly the one of the last catalog commit at which the generation rose, or not found; the security and corrupt
   * outcomes never occur.
   */
  lemma CatalogAtomicity(sha: Sha, store: Store, cmds: seq<Command>)
    requires CatalogFresh(store) && CatalogSeparated(cmds) && Survives(sha, store, cmds)
    ensures var r := LoadActiveCatalog(sha, Run(sha, store, cmds));
            match LastPublished(sha, store, cmds).catalog
            case None => r == Err(ItemNotFound)
            case Some(c) => r.Done? && r.value.1 == c
  {
    hide LoadCurrent, LoadActiveCatalog, CatalogInv, Survives, CatalogFresh, CatalogSeparated, LastPublished, Run;
    SeparatedRun(sha, store, cmds);
    RunKeepsCatalog(sha, store, cmds);
    ActiveCatalogIsPublished(sha, Run(sha, store, cmds), LastPublished(sha, store, cmds).catalog);
  }

  // ----- applications -----

  predicate AppHolds(sha: Sha, store: Store, published: Option<A.AppRecord>) {
    LoadCurrent(store).Done? && AppInvNow(sha, store, published)
  }

  predicate ShowsApp(sha: Sha, store: Store, published: Option<A.AppRecord>) {
    var r := LoadActiveApp(sha, store);
    if published.None? then r.Err? else r.Done? && r.value.1 == published.value
  }

  lemma HoldsShowsApp(sha: Sha, store: Store, published: Option<A.AppRecord>)
    requires AppHolds(sha, store, published)
    ensures ShowsApp(sha, store, published)
  {
    hide LoadCurrent, AppInv, LoadActiveApp;
    ActiveAppIsPublished(sha, store, published);
  }

  /** A slot holds a staged record, above the given generation, which this acceptance would publish by itself. */
  predicate Surfaces(sha: Sha, store: Store, a: Accept, above: nat, i: slot) {
    var v := ViewApp(sha, store, i);
    v.StagedApp? && v.record.id == a.id && v.record.sequence == a.sequence && above < v.record.generation <= a.expected + 1
  }

  /** A plain acceptance that hides the published application or brings up a staged one. */
  predicate DisturbsApp(sha: Sha, store: Store, published: Option<A.AppRecord>, cmd: Command) {
    cmd.Plain? && Effective(sha, store, cmd)
    && match published
       case None => EmergesFirst(sha, store, cmd.accept)
       case Some(app) =>
         cmd.accept.id == app.id || Surfaces(sha, store, cmd.accept, app.generation, 0)
         || Surfaces(sha, store, cmd.accept, app.generation, 1)
  }

  /** With nothing published, the first slot holds a staged record that the acceptance names. */
  predicate EmergesFirst(sha: Sha, store: Store, a: Accept) {
    var v := ViewApp(sha, store, 0);
    v.StagedApp? && v.record.id == a.id && v.record.sequence == a.sequence && v.record.generation <= a.expected + 1
  }

  lemma WhereIsApp(sha: Sha, store: Store, app: A.AppRecord) returns (a: slot)
    requires AppHolds(sha, store, Some(app))
    ensures AppAt(sha, store, app, Accepted(store), a) && app.generation <= LoadCurrent(store).value.generation
    ensures app.id in Accepted(store) && Accepted(store)[app.id] == app.sequence
  {
    hide LoadCurrent, AsMap, AppAt, StagedInTime;
    a := if AppAt(sha, store, app, Accepted(store), 0) then 0 else 1;
  }

  /** Which slot is selected once the acceptance has raised one other id. */
  lemma SelectedApp(sha: Sha, store: Store, after: Store, q: Accept, app: A.AppRecord, a: slot)
    requires LoadCurrent(store).Done? && LoadCurrent(after).Done?
    requires LoadCurrent(after).value.generation == q.expected + 1 == LoadCurrent(store).value.generation + 1
    requires Accepted(after) == Accepted(store)[q.id := q.sequence] && q.id != app.id
    requires ViewApp(sha, after, 0) == ViewApp(sha, store, 0) && ViewApp(sha, after, 1) == ViewApp(sha, store, 1)
    requires AppAt(sha, store, app, Accepted(store), a) && app.id in Accepted(store) && Accepted(store)[app.id] == app.sequence
    requires app.generation <= LoadCurrent(store).value.generation
    ensures ShowsApp(sha, after, Some(app))
            <==> !Surfaces(sha, store, q, app.generation, 0) && !Surfaces(sha, store, q, app.generation, 1)
    ensures Surfaces(sha, store, q, app.generation, 1 - a) ==>
              LoadActiveApp(sha, after) == Done((1 - a, ViewApp(sha, store, 1 - a).record))
  {
    hide LoadCurrent, AsMap, ViewApp;
    var v, other := ViewApp(sha, after, a), ViewApp(sha, after, 1 - a);
    assert Qualifies(v, LoadCurrent(after).value);
    assert other.StagedApp? && other.record.generation > app.generation ==>
        (Qualifies(other, LoadCurrent(after).value) <==> Surfaces(sha, store, q, app.generation, 1 - a));
  }

  /**
   * An acceptance that takes effect leaves the published application active exactly when it is for another id and no
   * slot holds a newer staged record with the accepted id and sequence.
   */
  lemma PlainKeepsAppIff(sha: Sha, store: Store, cmd: Command, app: A.AppRecord)
    requires AppHolds(sha, store, Some(app)) && cmd.Plain? && Effective(sha, store, cmd)
    ensures ShowsApp(sha, Step(sha, store, cmd).store, Some(app))
            <==> cmd.accept.id != app.id && !Surfaces(sha, store, cmd.accept, app.generation, 0)
                 && !Surfaces(sha, store, cmd.accept, app.generation, 1)
  {
    EffectiveIsNoCut(sha, store, cmd);
    hide LoadCurrent, AppInv, AsMap, Step, LoadActiveApp, ViewApp, AppAt, Effective, CutsFirstPublication;
    var after := Step(sha, store, cmd).store;
    PlainStep(sha, store, cmd);
    ViewAppFrame(sha, store, after, 0);
    ViewAppFrame(sha, store, after, 1);
    var a := WhereIsApp(sha, store, app);
    if cmd.accept.id == app.id {
      ActiveIsAccepted(sha, after);
    } else {
      SelectedApp(sha, store, after, cmd.accept, app, a);
    }
  }

  /** Undisturbed, the published application stays where it is and the other slot stays unpublished. */
  lemma PlainHoldsApp(sha: Sha, store: Store, cmd: Command, app: A.AppRecord)
    requires AppHolds(sha, store, Some(app)) && cmd.Plain? && Effective(sha, store, cmd)
    requires !DisturbsApp(sha, store, Some(app), cmd)
    ensures AppHolds(sha, Step(sha, store, cmd).store, Some(app))
  {
    EffectiveIsNoCut(sha, store, cmd);
    hide LoadCurrent, AsMap, Step, ViewApp, Effective, CutsFirstPublication;
    var after := Step(sha, store, cmd).store;
    PlainStep(sha, store, cmd);
    ViewAppFrame(sha, store, after, 0);
    ViewAppFrame(sha, store, after, 1);
    var a := WhereIsApp(sha, store, app);
    assert AppAt(sha, after, app, Accepted(after), a);
  }

  /** With nothing published, an acceptance makes an application active exactly when it names the staged one. */
  lemma PlainShowsAppIff(sha: Sha, store: Store, cmd: Command)
    requires AppHolds(sha, store, None) && cmd.Plain? && Effective(sha, store, cmd)
    ensures var after, named := Step(sha, store, cmd).store, EmergesFirst(sha, store, cmd.accept);
            && (LoadActiveApp(sha, after).Done? <==> named)
            && (named ==> LoadActiveApp(sha, after) == Done((0, ViewApp(sha, store, 0).record)))
            && (!named ==> AppHolds(sha, after, None))
  {
    EffectiveIsNoCut(sha, store, cmd);
    hide LoadCurrent, AsMap, Step, ViewApp, Effective, CutsFirstPublication;
    var after := Step(sha, store, cmd).store;
    PlainStep(sha, store, cmd);
    ViewAppFrame(sha, store, after, 0);
    ViewAppFrame(sha, store, after, 1);
    assert ViewApp(sha, store, 0).StagedApp? ==> ViewApp(sha, store, 0).record.generation <= cmd.accept.expected + 1;
  }

  lemma AppCommitKeepsApp(sha: Sha, store: Store, cmd: Command, p: Published)
    requires AppHolds(sha, store, p.app) && cmd.PutApp? && !CutsFirstPublication(sha, store, cmd)
    requires PrepareApp(sha, store, cmd.app).Done?
    ensures AppHolds(sha, Step(sha, store, cmd).store, Track(p, store, cmd, Step(sha, store, cmd).store).app)
  {
    hide LoadCurrent, AppInv, AsMap, Commit, CutsFirstPublication, TakesEffect, A.IsAppId, PrepareApp, StageApp;
    var q, after := cmd.app, Step(sha, store, cmd).store;
    var staged := StageApp(sha, store, q, cmd.staging);
    StepConsistency(sha, store, cmd);
    AppPrepared(sha, store, q, cmd.staging);
    CommitFrame(staged, q.accept, cmd.publish);
    var g, g' := LoadCurrent(store).value.generation, LoadCurrent(after).value.generation;
    if Effective(sha, store, cmd) {
      PublishingApp(sha, store, q, Accepted(after), p.app);
      AppInvFrame(sha, staged, after, q.accept.expected + 1, g', Accepted(after), Accepted(after), Some(StagedAppRecord(q)));
    } else {
      AppStagingIsInvisible(sha, store, q, cmd.staging, p.app);
      AppInvFrame(sha, staged, after, g, g', Accepted(store), Accepted(after), p.app);
    }
  }

  lemma CatalogCommitKeepsApp(sha: Sha, store: Store, cmd: Command, published: Option<A.AppRecord>)
    requires AppHolds(sha, store, published) && cmd.PutCatalog? && !CutsFirstPublication(sha, store, cmd)
    requires PrepareCatalog(sha, store, cmd.catalog).Done?
    ensures AppHolds(sha, Step(sha, store, cmd).store, published)
  {
    hide LoadCurrent, AppInv, AsMap, Commit, CutsFirstPublication, TakesEffect, A.IsAppId, PrepareCatalog, Stage;
    var q, after := cmd.catalog, Step(sha, store, cmd).store;
    StepConsistency(sha, store, cmd);
    CatalogIdIsNoAppId();
    CatalogPrepared(sha, store, q, cmd.staging);
    CommitFrame(Stage(sha, store, q, cmd.staging), q.accept, cmd.publish);
    AppInvFrame(sha, store, after, LoadCurrent(store).value.generation, LoadCurrent(after).value.generation,
                Accepted(store), Accepted(after), published);
  }

  /** One step: undisturbed the invariant holds on, disturbed the published application is no longer what is active. */
  lemma AppStep(sha: Sha, store: Store, cmd: Command, p: Published)
    requires AppHolds(sha, store, p.app) && !CutsFirstPublication(sha, store, cmd)
    ensures var after := Step(sha, store, cmd).store; var next := Track(p, store, cmd, after).app;
            if DisturbsApp(sha, store, p.app, cmd) then !ShowsApp(sha, after, next) else AppHolds(sha, after, next)
  {
    hide LoadCurrent, CutsFirstPublication, PrepareCatalog, PrepareApp, Commit, Effective, AppInv, LoadActiveApp, EmergesFirst, Surfaces,
      A.IsAppId;
    match cmd
    case Plain(a, _) =>
      if !Effective(sha, store, cmd) {
        PlainStep(sha, store, cmd);
        AppInvFrame(sha, store, Step(sha, store, cmd).store, LoadCurrent(store).value.generation,
                    LoadCurrent(store).value.generation, Accepted(store), Accepted(store), p.app);
      } else if p.app.None? {
        PlainShowsAppIff(sha, store, cmd);
      } else {
        PlainKeepsAppIff(sha, store, cmd, p.app.value);
        if !DisturbsApp(sha, store, p.app, cmd) {
          PlainHoldsApp(sha, store, cmd, p.app.value);
        }
      }
    case PutCatalog(q, _, _) =>
      if PrepareCatalog(sha, store, q).Done? {
        CatalogCommitKeepsApp(sha, store, cmd, p.app);
      }
    case PutApp(q, _, _) =>
      if PrepareApp(sha, store, q).Done? {
        AppCommitKeepsApp(sha, store, cmd, p);
      }
  }

  /** No application object yet; any id may have been accepted before. */
  predicate AppFresh(store: Store) {
    LoadCurrent(store).Done? && App(0) !in store && App(1) !in store
  }

  predicate AppUndisturbed(sha: Sha, store: Store, cmds: seq<Command>) {
    cmds == [] ||
    (var before := cmds[..|cmds| - 1];
     AppUndisturbed(sha, store, before)
     && !DisturbsApp(sha, Run(sha, store, before), LastPublished(sha, store, before).app, cmds[|cmds| - 1]))
  }

  /** After every command of the run the active application is the one last published until then, or there is none. */
  predicate AppAlwaysShown(sha: Sha, store: Store, cmds: seq<Command>) {
    (cmds == [] || AppAlwaysShown(sha, store, cmds[..|cmds| - 1]))
    && ShowsApp(sha, Run(sha, store, cmds), LastPublished(sha, store, cmds).app)
  }

  lemma FreshHoldsApp(sha: Sha, store: Store)
    requires AppFresh(store)
    ensures AppHolds(sha, store, None)
  {
    hide LoadCurrent, A.ParseApp, A.ReadHeader;
  }

  lemma {:induction false} RunKeepsApp(sha: Sha, store: Store, cmds: seq<Command>)
    requires AppFresh(store) && Survives(sha, store, cmds)
    ensures if AppUndisturbed(sha, store, cmds)
            then AppHolds(sha, Run(sha, store, cmds), LastPublished(sha, store, cmds).app) && AppAlwaysShown(sha, store, cmds)
            else !AppAlwaysShown(sha, store, cmds)
    decreases |cmds|
  {
    hide LoadCurrent, AppHolds, ShowsApp, Step, Track, CutsFirstPublication, DisturbsApp, AppFresh;
    if cmds == [] {
      FreshHoldsApp(sha, store);
      HoldsShowsApp(sha, store, None);
    } else {
      var n := |cmds| - 1;
      SurvivesPrefix(sha, store, cmds, n);
      RunKeepsApp(sha, store, cmds[..n]);
      if AppUndisturbed(sha, store, cmds[..n]) {
        AppStep(sha, Run(sha, store, cmds[..n]), cmds[n], LastPublished(sha, store, cmds[..n]));
        if AppUndisturbed(sha, store, cmds) {
          HoldsShowsApp(sha, Run(sha, store, cmds), LastPublished(sha, store, cmds).app);
        }
      }
    }
  }

  /** Throughout a run the active application is the one last published exactly as long as no plain acceptance disturbs it. */
  lemma AppAtomicityIff(sha: Sha, store: Store, cmds: seq<Command>)
    requires AppFresh(store) && Survives(sha, store, cmds)
    ensures AppAlwaysShown(sha, store, cmds) <==> AppUndisturbed(sha, store, cmds)
  {
    RunKeepsApp(sha, store, cmds);
  }

  /** Application ids are accepted through application commits only. */
  predicate AppSeparated(cmds: seq<Command>) {
    forall i :: 0 <= i < |cmds| && cmds[i].Plain? ==> !A.IsAppId(cmds[i].accept.id)
  }

  lemma {:induction false} SeparatedIsUndisturbed(sha: Sha, store: Store, cmds: seq<Command>)
    requires AppFresh(store) && Survives(sha, store, cmds) && AppSeparated(cmds)
    ensures AppUndisturbed(sha, store, cmds)
    decreases |cmds|
  {
    hide LoadCurrent, AppHolds, Step, Track, CutsFirstPublication, AppFresh, Effective, A.IsAppId, DisturbsApp;
    if cmds != [] {
      var n := |cmds| - 1;
      SurvivesPrefix(sha, store, cmds, n);
      SeparatedIsUndisturbed(sha, store, cmds[..n]);
      RunKeepsApp(sha, store, cmds[..n]);
      OtherIdsDoNotDisturb(sha, Run(sha, store, cmds[..n]), LastPublished(sha, store, cmds[..n]).app, cmds[n]);
    }
  }

  lemma OtherIdsDoNotDisturb(sha: Sha, store: Store, published: Option<A.AppRecord>, cmd: Command)
    requires AppHolds(sha, store, published) && (cmd.Plain? ==> !A.IsAppId(cmd.accept.id))
    ensures !DisturbsApp(sha, store, published, cmd)
  {
    hide LoadCurrent, AsMap, ViewApp, Effective, A.IsAppId, Unpublished;
    StagedIdIsAppId(sha, store, 0);
    StagedIdIsAppId(sha, store, 1);
  }

  lemma StagedIdIsAppId(sha: Sha, store: Store, i: slot)
    ensures var v := ViewApp(sha, store, i); v.StagedApp? ==> A.IsAppId(v.record.id)
  {
    hide A.ReadHeader;
    ViewAppFrame(sha, store, store, i);
  }

  /**
   * Application atomicity: when application ids are accepted through application commits only, the active application
   * after any run is exactly the last published record, through every fault. Before the first publication there is none; a
   * leftover staged object then reads as corrupt, never as an application.
   */
  lemma AppAtomicity(sha: Sha, store: Store, cmds: seq<Command>)
    requires AppFresh(store) && AppSeparated(cmds) && Survives(sha, store, cmds)
    ensures var end := Run(sha, store, cmds); var r := LoadActiveApp(sha, end);
            match LastPublished(sha, store, cmds).app
            case None => r == Err(if App(0) in end then CorruptObject else ItemNotFound)
            case Some(a) => r.Done? && r.value.1 == a
  {
    hide LoadCurrent, LoadActiveApp, AppInv, Survives, AppFresh, AppSeparated, LastPublished, Run, A.ParseApp, A.ReadHeader;
    SeparatedIsUndisturbed(sha, store, cmds);
    RunKeepsApp(sha, store, cmds);
    ActiveAppIsPublished(sha, Run(sha, store, cmds), LastPublished(sha, store, cmds).app);
  }

  // ----- a run that was cut -----

  /** After a run cut at the first publication nothing is active any more. */
  lemma CutRunShowsNothing(sha: Sha, store: Store, cmds: seq<Command>)
    requires LoadCurrent(store).Done? && !Survives(sha, store, cmds)
    ensures var end := Run(sha, store, cmds);
            LoadActiveCatalog(sha, end) == Err(CorruptObject) && LoadActiveApp(sha, end).Err?
  {
    hide LoadCurrent, Survives, Run, ViewCatalog, ViewApp;
    assert C.DEFAULT_ID[0] == 0x82;
    LoadsIffSurvives(sha, store, cmds);
  }
}

/** What each storage commit answers: exactly when it succeeds, what it returns, and how it refuses. */
module CommitAnswers {
  import opened Bytes
  import opened AcceptanceRecord
  import opened AcceptanceUpdate
  import opened AcceptanceStore
  import opened CatalogStore
  import opened AppStore
  import opened ProtectedState
  import Atomicity
  import opened Tee
  import C = CatalogRecord
  import A = AppRecord

  // ----- acceptances -----

  predicate WellPosed(a: Accept) { a.id != [] && a.sequence > 0 }

  /** The response has not been consumed, and it raises the component. */
  predicate Raises(cur: Current, a: Accept) {
    cur.digest != Some(a.digest) && (a.id in AsMap(cur.components) ==> AsMap(cur.components)[a.id] < a.sequence)
  }

  /** The state after the acceptance fits a slot: at most 32 components, at most 4096 bytes. */
  predicate Fits(cur: Current, a: Accept)
    requires cur.generation < U64_MAX
  {
    var next := Committed(cur, a).components;
    |next| <= MAX_COMPONENTS && |EncodeRecord(Record(cur.generation + 1, next, a.digest))| <= MAX_SIZE
  }

  predicate Admits(cur: Current, a: Accept) {
    WellPosed(a) && cur.generation == a.expected < U64_MAX && Raises(cur, a) && Fits(cur, a)
  }

  /** What a record encodes contains every id it updates, so a long id never fits. */
  lemma {:induction false} IdCounts(cs: seq<Component>, c: Component)
    ensures |c.id| <= |EncodeComponents(Upsert(cs, c))|
  {
    var r := Upsert(cs, c);
    if cs != [] && cs[0].id != c.id && !LengthFirstLess(c.id, cs[0].id) {
      IdCounts(cs[1..], c);
      assert r[1..] == Upsert(cs[1..], c);
    } else {
      assert r[0] == c;
    }
  }

  lemma FittingId(cur: Current, a: Accept)
    requires cur.generation < U64_MAX && Fits(cur, a)
    ensures |a.id| <= MAX_SIZE
  {
    hide EncodeComponents, Upsert;
    IdCounts(cur.components, Component(a.id, a.sequence));
  }

  /**
   * An acceptance succeeds exactly when it is well posed, expects the loaded generation, brings an unconsumed digest and a
   * higher sequence, and fits; it then returns the generation that loads afterwards. Refused, it leaves storage alone.
   */
  lemma CommitAnswerIff(store: Store, a: Accept, fault: Fault)
    requires LoadCurrent(store).Done?
    ensures var cur, r := LoadCurrent(store).value, Commit(store, a, fault);
            && (r.result.Done? <==> Admits(cur, a) && fault == NoFault)
            && (r.result.Done? ==> LoadCurrent(r.store).Done? && LoadCurrent(r.store).value.generation == r.result.value)
            && (Admits(cur, a) && Lands(fault) ==> LoadCurrent(r.store) == Done(Committed(cur, a)))
            && (Admits(cur, a) && fault != NoFault ==> r.result == Err(FaultCode(fault)))
            && (!Admits(cur, a) ==> r.store == store)
  {
    hide LoadCurrent, EncodeRecord, Upsert, AsMap;
    var cur := LoadCurrent(store).value;
    if cur.generation < U64_MAX && Fits(cur, a) {
      FittingId(cur, a);
    }
    CrashConsistency(store, a, fault);
  }

  /** A response whose digest was the last one consumed is refused, and nothing changes. */
  lemma ConsumedIsRefused(store: Store, a: Accept, fault: Fault)
    requires LoadCurrent(store).Done? && LoadCurrent(store).value.digest == Some(a.digest)
    ensures var r := Commit(store, a, fault); r.store == store && r.result.Err?
    ensures WellPosed(a) && LoadCurrent(store).value.generation < U64_MAX ==> Commit(store, a, fault).result == Err(AccessConflict)
  {
    hide LoadCurrent;
  }

  /** How the other refusals are told apart. */
  lemma CommitRefusals(store: Store, a: Accept, fault: Fault)
    ensures var r, l := Commit(store, a, fault), LoadCurrent(store);
            && (!WellPosed(a) ==> r == Reply(store, Err(BadParameters)))
            && (WellPosed(a) && l.Err? ==> r == Reply(store, Err(l.code)))
            && (WellPosed(a) && l.Done? ==>
                  && (l.value.generation != a.expected ==> r == Reply(store, Err(AccessConflict)))
                  && (l.value.generation == a.expected == U64_MAX ==> r == Reply(store, Err(Overflow)))
                  && (l.value.generation == a.expected < U64_MAX && !Raises(l.value, a) && |a.id| <= MAX_SIZE ==>
                        r == Reply(store, Err(AccessConflict)))
                  && (l.value.generation == a.expected < U64_MAX && Raises(l.value, a) && !Fits(l.value, a) ==>
                        r == Reply(store, Err(ExcessData))))
  {
    hide LoadCurrent, EncodeRecord, Upsert, AsMap;
  }

  // ----- catalogs -----

  /** The payload is the one the request claims, and within the limits. */
  predicate CatalogWellPosed(q: CatalogRequest) {
    q.accept.id == C.DEFAULT_ID && q.accept.sequence > 0 && 0 < |q.catalog| <= C.MAX_PAYLOAD && q.accept.expected < U64_MAX
  }

  /** A catalog may be staged: the payload has the claimed hash, and an accepted one is older and can be loaded. */
  predicate AdmitsCatalog(sha: Sha, store: Store, q: CatalogRequest)
    requires LoadCurrent(store).Done?
  {
    CatalogWellPosed(q) && sha(q.catalog) == q.claimed && LoadCurrent(store).value.generation == q.accept.expected
    && (C.DEFAULT_ID in Accepted(store) ==>
          Accepted(store)[C.DEFAULT_ID] < q.accept.sequence && LoadActiveCatalog(sha, store).Done?)
  }

  lemma PrepareCatalogIff(sha: Sha, store: Store, q: CatalogRequest)
    requires LoadCurrent(store).Done?
    ensures PrepareCatalog(sha, store, q).Done? <==> AdmitsCatalog(sha, store, q)
  {
    hide LoadCurrent, LoadActiveCatalog, AsMap;
    assert C.DEFAULT_ID[0] == 0x82;
  }

  /**
   * A catalog commit changes storage only if the payload has the claimed hash and the catalog may be staged, and succeeds
   * exactly when, besides, its acceptance is admitted; it returns the generation that loads afterwards.
   */
  lemma CatalogAnswerIff(sha: Sha, store: Store, q: CatalogRequest, staging: Fault, publish: Fault)
    requires LoadCurrent(store).Done?
    ensures var cur, r := LoadCurrent(store).value, CommitCatalog(sha, store, q, staging, publish);
            && (!AdmitsCatalog(sha, store, q) ==> r.store == store && r.result.Err?)
            && (r.result.Done? <==> AdmitsCatalog(sha, store, q) && Admits(cur, q.accept) && staging == publish == NoFault)
            && (r.result.Done? ==> LoadCurrent(r.store) == Done(Committed(cur, q.accept))
                                   && LoadCurrent(r.store).value.generation == r.result.value)
            && (Rose(store, r.store) ==> sha(q.catalog) == q.claimed && Admits(cur, q.accept))
  {
    hide LoadCurrent, PrepareCatalog, Admits, AdmitsCatalog, Commit, Stage;
    PrepareCatalogIff(sha, store, q);
    if PrepareCatalog(sha, store, q).Done? {
      CatalogStagingKeepsCurrent(sha, store, q, staging);
      var staged := Stage(sha, store, q, staging);
      CommitAnswerIff(staged, q.accept, publish);
      assert sha(q.catalog) == q.claimed by { StagedIsClaimed(sha, store, q); }
    }
  }

  lemma StagedIsClaimed(sha: Sha, store: Store, q: CatalogRequest)
    requires LoadCurrent(store).Done? && AdmitsCatalog(sha, store, q)
    ensures sha(q.catalog) == q.claimed
  {
  }

  lemma CatalogStagingKeepsCurrent(sha: Sha, store: Store, q: CatalogRequest, staging: Fault)
    requires PrepareCatalog(sha, store, q).Done?
    ensures LoadCurrent(Stage(sha, store, q, staging)) == LoadCurrent(store)
  {
    hide LoadCurrent, PrepareCatalog, C.EncodeCatalog;
    LoadFrame(store, Stage(sha, store, q, staging));
  }

  /** How a catalog commit tells its refusals apart. */
  lemma CatalogRefusals(sha: Sha, store: Store, q: CatalogRequest, staging: Fault, publish: Fault)
    ensures var r, l := CommitCatalog(sha, store, q, staging, publish), LoadCurrent(store);
            && (!CatalogWellPosed(q) ==> r == Reply(store, Err(BadParameters)))
            && (CatalogWellPosed(q) && sha(q.catalog) != q.claimed ==> r == Reply(store, Err(Security)))
            && (CatalogWellPosed(q) && sha(q.catalog) == q.claimed && l.Err? ==> r == Reply(store, Err(l.code)))
            && (CatalogWellPosed(q) && sha(q.catalog) == q.claimed && l.Done? ==>
                  if l.value.generation != q.accept.expected
                     || (C.DEFAULT_ID in Accepted(store) && q.accept.sequence <= Accepted(store)[C.DEFAULT_ID])
                  then r == Reply(store, Err(AccessConflict))
                  else C.DEFAULT_ID in Accepted(store) && LoadActiveCatalog(sha, store).Err? ==>
                         r == Reply(store, Err(LoadActiveCatalog(sha, store).code)))
  {
    hide LoadCurrent, LoadActiveCatalog, AsMap, Commit, Stage, ComponentSequence;
    if LoadCurrent(store).Done? {
      CatalogSequence(store);
    }
  }

  lemma CatalogSequence(store: Store)
    requires LoadCurrent(store).Done?
    ensures var r := ComponentSequence(store, C.DEFAULT_ID);
            if C.DEFAULT_ID in Accepted(store) then r.Done? && r.value.1 == Accepted(store)[C.DEFAULT_ID]
            else r == Err(ItemNotFound)
  {
    hide LoadCurrent, AsMap;
    assert C.DEFAULT_ID[0] == 0x82;
  }

  // ----- applications -----

  predicate AppWellPosed(q: AppRequest) {
    A.IsAppId(q.accept.id) && q.accept.sequence > 0 && 0 < |q.wasm| <= A.MAX_APP && q.accept.expected < U64_MAX
  }

  /** An application may be staged; a slot that cannot be read does not stand in its way. */
  predicate AdmitsApp(sha: Sha, store: Store, q: AppRequest)
    requires LoadCurrent(store).Done?
  {
    AppWellPosed(q) && sha(q.wasm) == q.claimed && LoadCurrent(store).value.generation == q.accept.expected
    && (q.accept.id in Accepted(store) ==> Accepted(store)[q.accept.id] < q.accept.sequence)
    && var active := LoadActiveApp(sha, store); active.Done? || active.code in {ItemNotFound, CorruptObject}
  }

  lemma PrepareAppIff(sha: Sha, store: Store, q: AppRequest)
    requires LoadCurrent(store).Done?
    ensures PrepareApp(sha, store, q).Done? <==> AdmitsApp(sha, store, q)
  {
    hide LoadCurrent, LoadActiveApp, AsMap, A.IsAppId;
    if A.IsAppId(q.accept.id) {
      A.AppIdLength(q.accept.id);
    }
  }

  lemma AppStagingKeepsCurrent(sha: Sha, store: Store, q: AppRequest, staging: Fault)
    requires PrepareApp(sha, store, q).Done?
    ensures LoadCurrent(StageApp(sha, store, q, staging)) == LoadCurrent(store)
  {
    hide LoadCurrent, PrepareApp, A.EncodeApp;
    LoadFrame(store, StageApp(sha, store, q, staging));
  }

  /** The same of an application commit. */
  lemma AppAnswerIff(sha: Sha, store: Store, q: AppRequest, staging: Fault, publish: Fault)
    requires LoadCurrent(store).Done?
    ensures var cur, r := LoadCurrent(store).value, CommitApp(sha, store, q, staging, publish);
            && (!AdmitsApp(sha, store, q) ==> r.store == store && r.result.Err?)
            && (r.result.Done? <==> AdmitsApp(sha, store, q) && Admits(cur, q.accept) && staging == publish == NoFault)
            && (r.result.Done? ==> LoadCurrent(r.store) == Done(Committed(cur, q.accept))
                                   && LoadCurrent(r.store).value.generation == r.result.value)
            && (Rose(store, r.store) ==> sha(q.wasm) == q.claimed && Admits(cur, q.accept))
  {
    hide LoadCurrent, PrepareApp, Admits, AdmitsApp, Commit, StageApp;
    PrepareAppIff(sha, store, q);
    if PrepareApp(sha, store, q).Done? {
      AppStagingKeepsCurrent(sha, store, q, staging);
      var staged := StageApp(sha, store, q, staging);
      CommitAnswerIff(staged, q.accept, publish);
      assert sha(q.wasm) == q.claimed by { StagedAppIsClaimed(sha, store, q); }
    }
  }

  lemma StagedAppIsClaimed(sha: Sha, store: Store, q: AppRequest)
    requires LoadCurrent(store).Done? && AdmitsApp(sha, store, q)
    ensures sha(q.wasm) == q.claimed
  {
    hide LoadActiveApp, A.IsAppId;
  }

  /** How an application commit tells its refusals apart. */
  lemma AppRefusals(sha: Sha, store: Store, q: AppRequest, staging: Fault, publish: Fault)
    ensures var r, l := CommitApp(sha, store, q, staging, publish), LoadCurrent(store);
            && (!AppWellPosed(q) ==> r == Reply(store, Err(BadParameters)))
            && (AppWellPosed(q) && sha(q.wasm) != q.claimed ==> r == Reply(store, Err(Security)))
            && (AppWellPosed(q) && sha(q.wasm) == q.claimed && l.Err? ==> r == Reply(store, Err(l.code)))
            && (AppWellPosed(q) && sha(q.wasm) == q.claimed && l.Done? ==>
                  if l.value.generation != q.accept.expected
                     || (q.accept.id in Accepted(store) && q.accept.sequence <= Accepted(store)[q.accept.id])
                  then r == Reply(store, Err(AccessConflict))
                  else var active := LoadActiveApp(sha, store);
                       active.Err? && active.code !in {ItemNotFound, CorruptObject} ==> r == Reply(store, Err(active.code)))
  {
    hide LoadCurrent, LoadActiveApp, AsMap, A.IsAppId, Commit, StageApp;
    if A.IsAppId(q.accept.id) {
      A.AppIdLength(q.accept.id);
    }
  }

  // ----- what was committed is what loads -----

  lemma AdmittedRises(store: Store, a: Accept, after: Store)
    requires LoadCurrent(store).Done? && Admits(LoadCurrent(store).value, a)
    requires LoadCurrent(after) == Done(Committed(LoadCurrent(store).value, a))
    ensures Rose(store, after) && a.expected < U64_MAX && LoadCurrent(after).value.generation == a.expected + 1
  {
    hide LoadCurrent, Fits, Raises, Upsert;
  }

  /** After a catalog commit that succeeded, the active catalog is the committed one, staged for the generation returned. */
  lemma CommittedCatalogLoads(sha: Sha, store: Store, q: CatalogRequest, staging: Fault, publish: Fault,
                              published: Option<C.CatalogRecord>)
    requires Atomicity.CatalogHolds(sha, store, published)
    requires CommitCatalog(sha, store, q, staging, publish).result.Done?
    ensures var r := CommitCatalog(sha, store, q, staging, publish); var l := LoadActiveCatalog(sha, r.store);
            l.Done? && l.value.1 == C.CatalogRecord(r.result.value, q.accept.sequence, q.catalog)
  {
    hide LoadCurrent, CommitCatalog, LoadActiveCatalog, CatalogInv, Admits, AdmitsCatalog, PrepareCatalog, Rose, Committed,
      CutsFirstPublication;
    CatalogAnswerIff(sha, store, q, staging, publish);
    PrepareCatalogIff(sha, store, q);
    var cmd := PutCatalog(q, staging, publish);
    AdmittedRises(store, q.accept, Step(sha, store, cmd).store);
    NoFaultNoCut(sha, store, cmd);
    Atomicity.CatalogCommitKeepsCatalog(sha, store, cmd, Published(published, None));
    Atomicity.HoldsShowsCatalog(sha, Step(sha, store, cmd).store, Some(StagedRecord(q)));
  }

  /** The same of an application commit. */
  lemma CommittedAppLoads(sha: Sha, store: Store, q: AppRequest, staging: Fault, publish: Fault, published: Option<A.AppRecord>)
    requires Atomicity.AppHolds(sha, store, published)
    requires CommitApp(sha, store, q, staging, publish).result.Done?
    ensures var r := CommitApp(sha, store, q, staging, publish); var l := LoadActiveApp(sha, r.store);
            l.Done? && l.value.1 == A.AppRecord(r.result.value, q.accept.sequence, q.accept.id, q.wasm)
  {
    hide LoadCurrent, CommitApp, LoadActiveApp, AppInv, Admits, AdmitsApp, PrepareApp, Rose, Committed, CutsFirstPublication;
    AppAnswerIff(sha, store, q, staging, publish);
    PrepareAppIff(sha, store, q);
    var cmd := PutApp(q, staging, publish);
    AdmittedRises(store, q.accept, Step(sha, store, cmd).store);
    NoFaultNoCut(sha, store, cmd);
    Atomicity.AppCommitKeepsApp(sha, store, cmd, Published(None, published));
    Atomicity.HoldsShowsApp(sha, Step(sha, store, cmd).store, Some(StagedAppRecord(q)));
  }

  lemma NoFaultNoCut(sha: Sha, store: Store, cmd: Command)
    requires cmd.publish == NoFault
    ensures !CutsFirstPublication(sha, store, cmd)
  {
    hide AtPublication, Prepare;
  }

  /** A write that fails tells its caller so: power cuts do not return, a failed read-back is corruption, the rest is storage. */
  lemma FaultAnswers(sha: Sha, store: Store, cmd: Command)
    requires LoadCurrent(store).Done? && Step(sha, store, cmd).store != store && Step(sha, store, cmd).result.Err?
    requires !cmd.Plain? && cmd.staging != NoFault
    ensures Step(sha, store, cmd).result.code
            == if cmd.staging in {CutAfterCreate, CutAfterClose} then PowerLost
               else if cmd.staging == ReopenFails then CorruptObject else StorageNotAvailable
    ensures LoadCurrent(Step(sha, store, cmd).store) == LoadCurrent(store)
  {
    hide LoadCurrent, PrepareCatalog, PrepareApp, Stage, StageApp, Commit;
    match cmd
    case PutCatalog(q, staging, _) =>
      if PrepareCatalog(sha, store, q).Done? {
        CatalogStagingKeepsCurrent(sha, store, q, staging);
      }
    case PutApp(q, staging, _) =>
      if PrepareApp(sha, store, q).Done? {
        AppStagingKeepsCurrent(sha, store, q, staging);
      }
  }

  // ----- whole runs -----

  /** No command of a part of the run takes effect. */
  predicate Idle(sha: Sha, store: Store, cmds: seq<Command>, i: nat, j: nat)
    requires i <= j <= |cmds|
  {
    forall k :: i <= k < j ==> !Effective(sha, Run(sha, store, cmds[..k]), cmds[k])
  }

  lemma {:induction false} IdleKeepsCurrent(sha: Sha, store: Store, cmds: seq<Command>, i: nat, j: nat)
    requires LoadCurrent(store).Done? && Survives(sha, store, cmds) && i <= j <= |cmds| && Idle(sha, store, cmds, i, j)
    ensures LoadCurrent(Run(sha, store, cmds[..j])) == LoadCurrent(Run(sha, store, cmds[..i]))
    decreases j
  {
    hide LoadCurrent, Effective, CutsFirstPublication, Step, AsMap, AcceptOf;
    if i < j {
      IdleKeepsCurrent(sha, store, cmds, i, j - 1);
      SurvivesPrefix(sha, store, cmds, j - 1);
      MonotoneHistory(sha, store, cmds[..j - 1]);
      StepConsistency(sha, Run(sha, store, cmds[..j - 1]), cmds[j - 1]);
      assert cmds[..j][..j - 1] == cmds[..j - 1];
    }
  }

  lemma EffectiveIsUnconsumed(sha: Sha, store: Store, cmd: Command)
    requires Effective(sha, store, cmd)
    ensures LoadCurrent(store).Done? && LoadCurrent(store).value.digest != Some(AcceptOf(cmd).digest)
  {
    hide LoadCurrent, PrepareCatalog, PrepareApp, Stage, StageApp, EncodeUpdated;
    StagingKeepsCurrent(sha, store, cmd);
  }

  /** Two commands that take effect, with none between them that does, consume different responses. */
  lemma NoResponseTwiceInARow(sha: Sha, store: Store, cmds: seq<Command>, i: nat, j: nat)
    requires LoadCurrent(store).Done? && Survives(sha, store, cmds) && i < j < |cmds|
    requires Effective(sha, Run(sha, store, cmds[..i]), cmds[i]) && Effective(sha, Run(sha, store, cmds[..j]), cmds[j])
    requires Idle(sha, store, cmds, i + 1, j)
    ensures AcceptOf(cmds[i]).digest != AcceptOf(cmds[j]).digest
  {
    hide LoadCurrent, Effective, CutsFirstPublication, Step, AsMap, AcceptOf, Idle, Survives;
    SurvivesPrefix(sha, store, cmds, i);
    MonotoneHistory(sha, store, cmds[..i]);
    StepConsistency(sha, Run(sha, store, cmds[..i]), cmds[i]);
    assert cmds[..i + 1][..i] == cmds[..i];
    IdleKeepsCurrent(sha, store, cmds, i + 1, j);
    EffectiveIsUnconsumed(sha, Run(sha, store, cmds[..j]), cmds[j]);
  }
}

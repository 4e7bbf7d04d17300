/**
 * Whole runs over the protected state: any sequence of acceptance, catalog and application commits
 * by any sessions, each struck by any fault. Command entry is serialised, so a run is a sequence.
 */
module ProtectedState {
  import opened Bytes
  import opened AcceptanceRecord
  import opened AcceptanceUpdate
  import opened AcceptanceStore
  import opened CatalogStore
  import opened AppStore
  import opened Tee
  import C = CatalogRecord
  import A = AppRecord

  datatype Command =
    | Plain(accept: Accept, publish: Fault)
    | PutCatalog(catalog: CatalogRequest, staging: Fault, publish: Fault)
    | PutApp(app: AppRequest, staging: Fault, publish: Fault)

  function AcceptOf(cmd: Command): Accept {
    match cmd case Plain(a, _) => a case PutCatalog(q, _, _) => q.accept case PutApp(q, _, _) => q.accept
  }

  function Step(sha: Sha, store: Store, cmd: Command): Reply {
    match cmd
    case Plain(a, publish) => Commit(store, a, publish)
    case PutCatalog(q, staging, publish) => CommitCatalog(sha, store, q, staging, publish)
    case PutApp(q, staging, publish) => CommitApp(sha, store, q, staging, publish)
  }

  function Run(sha: Sha, store: Store, cmds: seq<Command>): Store {
    if cmds == [] then store
    else Step(sha, Run(sha, store, cmds[..|cmds| - 1]), cmds[|cmds| - 1]).store
  }

  /** The store at the moment the acceptance slot is to be published, if the command gets that far. */
  function AtPublication(sha: Sha, store: Store, cmd: Command): Option<Store> {
    match cmd
    case Plain(_, _) => Some(store)
    case PutCatalog(q, staging, _) =>
      if PrepareCatalog(sha, store, q).Done? && staging == NoFault then Some(Stage(sha, store, q, NoFault)) else None
    case PutApp(q, staging, _) =>
      if PrepareApp(sha, store, q).Done? && staging == NoFault then Some(StageApp(sha, store, q, NoFault)) else None
  }

  predicate Effective(sha: Sha, store: Store, cmd: Command) {
    var s := AtPublication(sha, store, cmd);
    s.Some? && TakesEffect(s.value, AcceptOf(cmd), cmd.publish)
  }

  /** A power cut in the middle of publishing the device's first acceptance slot. */
  predicate CutsFirstPublication(sha: Sha, store: Store, cmd: Command) {
    var s := AtPublication(sha, store, cmd);
    s.Some? && CutAtGenerationZero(s.value, AcceptOf(cmd), cmd.publish)
  }

  predicate Survives(sha: Sha, store: Store, cmds: seq<Command>) {
    forall i :: 0 <= i < |cmds| ==> !CutsFirstPublication(sha, Run(sha, store, cmds[..i]), cmds[i])
  }

  // ----- one step -----

  lemma StagingKeepsCurrent(sha: Sha, store: Store, cmd: Command)
    ensures var s := AtPublication(sha, store, cmd); s.Some? ==> LoadCurrent(s.value) == LoadCurrent(store)
    ensures AtPublication(sha, store, cmd).None? ==> LoadCurrent(Step(sha, store, cmd).store) == LoadCurrent(store)
  {
    hide LoadCurrent, PrepareCatalog, PrepareApp, A.EncodeApp, C.EncodeCatalog;
    if cmd.PutCatalog? && PrepareCatalog(sha, store, cmd.catalog).Done? {
      LoadFrame(store, Stage(sha, store, cmd.catalog, cmd.staging));
    }
    if cmd.PutApp? && PrepareApp(sha, store, cmd.app).Done? {
      LoadFrame(store, StageApp(sha, store, cmd.app, cmd.staging));
    }
  }

  /** Every command leaves the loaded state exactly as it was, or exactly one commit further. */
  lemma StepConsistency(sha: Sha, store: Store, cmd: Command)
    requires LoadCurrent(store).Done?
    ensures var old_ := LoadCurrent(store).value; var a := AcceptOf(cmd);
            Effective(sha, store, cmd) ==>
              old_.generation == a.expected < U64_MAX && LoadCurrent(Step(sha, store, cmd).store) == Done(Committed(old_, a))
              && AsMap(Committed(old_, a).components) == AsMap(old_.components)[a.id := a.sequence]
              && (a.id in AsMap(old_.components) ==> AsMap(old_.components)[a.id] < a.sequence)
    ensures !Effective(sha, store, cmd) ==>
              LoadCurrent(Step(sha, store, cmd).store)
              == if CutsFirstPublication(sha, store, cmd) then Err(CorruptObject) else LoadCurrent(store)
  {
    hide LoadCurrent, PrepareCatalog, PrepareApp, EncodeUpdated, AsMap, Committed, Stage, StageApp;
    StagingKeepsCurrent(sha, store, cmd);
    var s := AtPublication(sha, store, cmd);
    if s.Some? {
      CrashConsistency(s.value, AcceptOf(cmd), cmd.publish);
      if Prepare(s.value, AcceptOf(cmd)).Done? {
        PreparedReadsBack(s.value, AcceptOf(cmd));
      }
    }
  }

  // ----- monotone history -----

  /** b is a later state of the same history: nothing has been forgotten or lowered. */
  predicate Descends(a: Current, b: Current) {
    a.generation <= b.generation
    && forall id :: id in AsMap(a.components) ==>
                      id in AsMap(b.components) && AsMap(a.components)[id] <= AsMap(b.components)[id]
  }

  /** How many commands of the run took effect. */
  function Effects(sha: Sha, store: Store, cmds: seq<Command>): nat {
    if cmds == [] then 0
    else
      var before := cmds[..|cmds| - 1];
      Effects(sha, store, before)
      + if Effective(sha, Run(sha, store, before), cmds[|cmds| - 1]) then 1 else 0
  }

  lemma SurvivesPrefix(sha: Sha, store: Store, cmds: seq<Command>, i: nat)
    requires Survives(sha, store, cmds) && i <= |cmds|
    ensures Survives(sha, store, cmds[..i])
  {
    hide Run, CutsFirstPublication;
    forall j | 0 <= j < i
      ensures !CutsFirstPublication(sha, Run(sha, store, cmds[..i][..j]), cmds[..i][j])
    {
      assert cmds[..i][..j] == cmds[..j];
    }
  }

  /**
   * The loaded generation starts where it was, rises by one for each effective command and by
   * nothing else, and no component's sequence ever falls.
   */
  lemma {:induction false} MonotoneHistory(sha: Sha, store: Store, cmds: seq<Command>)
    requires LoadCurrent(store).Done? && Survives(sha, store, cmds)
    ensures var r := LoadCurrent(Run(sha, store, cmds));
            r.Done? && Descends(LoadCurrent(store).value, r.value)
            && r.value.generation == LoadCurrent(store).value.generation + Effects(sha, store, cmds)
    decreases |cmds|
  {
    hide LoadCurrent, Effective, CutsFirstPublication, Step, AsMap, AcceptOf;
    if cmds != [] {
      var before := cmds[..|cmds| - 1];
      SurvivesPrefix(sha, store, cmds, |cmds| - 1);
      MonotoneHistory(sha, store, before);
      StepConsistency(sha, Run(sha, store, before), cmds[|cmds| - 1]);
    }
  }

  lemma SurvivesSnoc(sha: Sha, store: Store, cmds: seq<Command>)
    requires cmds != []
    ensures var n := |cmds| - 1;
            Survives(sha, store, cmds)
            <==> Survives(sha, store, cmds[..n]) && !CutsFirstPublication(sha, Run(sha, store, cmds[..n]), cmds[n])
  {
    hide Run, CutsFirstPublication;
    var n := |cmds| - 1;
    if Survives(sha, store, cmds) {
      SurvivesPrefix(sha, store, cmds, n);
    }
    if Survives(sha, store, cmds[..n]) && !CutsFirstPublication(sha, Run(sha, store, cmds[..n]), cmds[n]) {
      forall i | 0 <= i < |cmds|
        ensures !CutsFirstPublication(sha, Run(sha, store, cmds[..i]), cmds[i])
      {
        if i < n {
          assert cmds[..n][..i] == cmds[..i] && cmds[..n][i] == cmds[i];
        }
      }
    }
  }

  /** A state that does not load accepts no command. */
  lemma UnloadableStays(sha: Sha, store: Store, cmd: Command)
    requires LoadCurrent(store).Err?
    ensures Step(sha, store, cmd).store == store
  {
    hide LoadCurrent, A.IsAppId;
  }

  /**
   * The state after a run loads exactly when the run was not cut in the middle of publishing the device's first
   * acceptance slot; otherwise it is corrupt, and stays so.
   */
  lemma {:induction false} LoadsIffSurvives(sha: Sha, store: Store, cmds: seq<Command>)
    requires LoadCurrent(store).Done?
    ensures var r := LoadCurrent(Run(sha, store, cmds)); if Survives(sha, store, cmds) then r.Done? else r == Err(CorruptObject)
    decreases |cmds|
  {
    hide LoadCurrent, Effective, CutsFirstPublication, Step, Survives, AsMap, AcceptOf;
    if cmds == [] {
      NothingCuts(sha, store);
    } else {
      var n := |cmds| - 1;
      SurvivesSnoc(sha, store, cmds);
      LoadsIffSurvives(sha, store, cmds[..n]);
      var before := Run(sha, store, cmds[..n]);
      if LoadCurrent(before).Done? {
        StepConsistency(sha, before, cmds[n]);
        EffectiveIsNoCut(sha, before, cmds[n]);
      } else {
        UnloadableStays(sha, before, cmds[n]);
      }
    }
  }

  lemma NothingCuts(sha: Sha, store: Store)
    ensures Survives(sha, store, [])
  {
  }

  lemma EffectiveIsNoCut(sha: Sha, store: Store, cmd: Command)
    ensures !(Effective(sha, store, cmd) && CutsFirstPublication(sha, store, cmd))
  {
    hide AtPublication, Prepare;
  }

  /** A run continued is the run of the rest from where it stopped. */
  lemma {:induction false} RunSplit(sha: Sha, store: Store, cmds: seq<Command>, i: nat)
    requires i <= |cmds|
    ensures Run(sha, Run(sha, store, cmds[..i]), cmds[i..]) == Run(sha, store, cmds)
    decreases |cmds|
  {
    hide Step;
    if i == |cmds| {
      assert cmds[..i] == cmds;
    } else {
      var n := |cmds| - 1;
      RunSplit(sha, store, cmds[..n], i);
      assert cmds[..n][..i] == cmds[..i] && cmds[..n][i..] == cmds[i..][..n - i];
    }
  }

  lemma SurvivesSuffix(sha: Sha, store: Store, cmds: seq<Command>, i: nat)
    requires Survives(sha, store, cmds) && i <= |cmds|
    ensures Survives(sha, Run(sha, store, cmds[..i]), cmds[i..])
  {
    hide Run, CutsFirstPublication;
    forall j | 0 <= j < |cmds| - i
      ensures !CutsFirstPublication(sha, Run(sha, Run(sha, store, cmds[..i]), cmds[i..][..j]), cmds[i..][j])
    {
      RunSplit(sha, store, cmds[..i + j], i);
      assert cmds[..i + j][..i] == cmds[..i] && cmds[..i + j][i..] == cmds[i..][..j];
      assert cmds[i..][j] == cmds[i + j];
    }
  }

  /** Of all commands of a run that hold the same expected generation, at most one takes effect. */
  lemma CompareAndCommit(sha: Sha, store: Store, cmds: seq<Command>, i: nat, j: nat)
    requires LoadCurrent(store).Done? && Survives(sha, store, cmds) && i < j < |cmds|
    requires Effective(sha, Run(sha, store, cmds[..i]), cmds[i])
    requires Effective(sha, Run(sha, store, cmds[..j]), cmds[j])
    ensures AcceptOf(cmds[i]).expected < AcceptOf(cmds[j]).expected
  {
    hide LoadCurrent, Effective, CutsFirstPublication, Step, AsMap, AcceptOf, Survives;
    SurvivesPrefix(sha, store, cmds, i);
    MonotoneHistory(sha, store, cmds[..i]);
    StepConsistency(sha, Run(sha, store, cmds[..i]), cmds[i]);
    var mid := Run(sha, store, cmds[..i + 1]);
    assert cmds[..i + 1][..i] == cmds[..i];
    SurvivesPrefix(sha, store, cmds, j);
    SurvivesSuffix(sha, store, cmds[..j], i + 1);
    assert cmds[..j][..i + 1] == cmds[..i + 1];
    RunSplit(sha, store, cmds[..j], i + 1);
    MonotoneHistory(sha, mid, cmds[..j][i + 1..]);
    StepConsistency(sha, Run(sha, store, cmds[..j]), cmds[j]);
  }

  // ----- what should be visible -----

  datatype Published = Published(catalog: Option<C.CatalogRecord>, app: Option<A.AppRecord>)

  /** The loaded generation rose by one between the two stores. */
  predicate Rose(before: Store, after: Store) {
    var a, b := LoadCurrent(before), LoadCurrent(after);
    a.Done? && b.Done? && b.value.generation == a.value.generation + 1
  }

  /** What should be visible: the last commit of each kind at which the loaded generation rose. */
  function Track(p: Published, before: Store, cmd: Command, after: Store): Published {
    if !Rose(before, after) || AcceptOf(cmd).expected == U64_MAX then p
    else match cmd
      case Plain(_, _) => p
      case PutCatalog(q, _, _) => p.(catalog := Some(StagedRecord(q)))
      case PutApp(q, _, _) => p.(app := Some(StagedAppRecord(q)))
  }

  function LastPublished(sha: Sha, store: Store, cmds: seq<Command>): Published {
    if cmds == [] then Published(None, None)
    else
      var before := cmds[..|cmds| - 1];
      Track(LastPublished(sha, store, before), Run(sha, store, before), cmds[|cmds| - 1], Run(sha, store, cmds))
  }

  /** Publishing writes acceptance slots only. */
  lemma CommitFrame(store: Store, a: Accept, fault: Fault)
    ensures var after := Commit(store, a, fault).store;
            SameAt(store, after, Catalog(0)) && SameAt(store, after, Catalog(1))
            && SameAt(store, after, App(0)) && SameAt(store, after, App(1))
  {
    hide Prepare;
  }
}

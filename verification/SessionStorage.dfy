/** The storage theorems over every run of every interleaving of sessions. */
module SessionStorage {
  import opened Bytes
  import opened Tee
  import opened HostIoResult
  import opened AcceptanceStore
  import opened CatalogStore
  import opened AppStore
  import opened Continuation
  import Atomicity
  import Protocol
  import A = AppRecord
  import C = CatalogRecord
  import P = ProtectedState

  // ----- the storage commands a run performs -----

  /** A commit host call as a command to protected storage. */
  function AsCommand(call: CommitCall): P.Command {
    match call
    case AcceptCall(a, publish, _) => P.Plain(a, publish)
    case CatalogCall(q, staging, publish, _) => P.PutCatalog(q, staging, publish)
    case AppCall(q, staging, publish, _) => P.PutApp(q, staging, publish)
  }

  /** A host call reaches storage when its attempt is logged. */
  function HostcallStored(sha: Sha, ta: Ta, i: nat, verified: bool, call: CommitCall): seq<P.Command>
    requires IsOpen(ta, i)
  {
    if CommitHostcall(sha, ta, i, verified, call).ta.log == ta.log then [] else [AsCommand(call)]
  }

  function ExecStored(w: World, ta: Ta, i: nat, rq: Request, ctx: Context, budget: nat): seq<P.Command>
    requires IsOpen(ta, i)
    decreases budget
  {
    if budget == 0 then []
    else
      match w.agent(rq)(ctx.trace)
      case Finish(_, _) => []
      case Local(query) =>
        var a := w.local(ta.store, CommitOf(At(ta, i)), rq, ctx.trace, query);
        ExecStored(w, ta, i, rq, ctx.(trace := ctx.trace + [LocalAnswer(a)]), budget - 1)
      case Io(call) =>
        var (reply, index) := AnswerIo(HistoryOf(At(ta, i)), ctx.index, call);
        var suspended := if reply.MustSuspend? then Some(call) else ctx.suspended;
        ExecStored(w, ta, i, rq, Context(index, suspended, ctx.trace + [IoAnswer(reply)]), budget - 1)
      case Publish(call) =>
        var c := CommitHostcall(w.sha, ta, i, rq.verified, call);
        HostcallStored(w.sha, ta, i, rq.verified, call)
        + ExecStored(w, c.ta, i, rq, ctx.(trace := ctx.trace + [CommitAnswer(c.status, c.generation)]), budget - 1)
  }

  function ResolveStored(w: World, ta: Ta, i: nat, rq: Request, luck: Luck): seq<P.Command>
    requires IsOpen(ta, i)
  {
    if luck.admitted then ExecStored(w, ta, i, rq, START, w.budget) else []
  }

  /** The resume gets as far as running the agent again. */
  predicate Reruns(s: Session, requestId: bytes, result: bytes, luck: Luck) {
    Awaits(s, requestId, result) && s.live.Some? && luck.workspace && luck.copied && ParsePayload(result).Done?
    && |s.live.value.history| < HISTORY_MAX
  }

  /** The session with the answer recorded, as the agent is run again over it. */
  function Longer(ta: Ta, i: nat, result: bytes): (r: Ta)
    requires IsOpen(ta, i) && At(ta, i).live.Some? && ParsePayload(result).Done?
    ensures IsOpen(r, i)
  {
    var live := At(ta, i).live.value;
    Put(ta, i, At(ta, i).(live := Some(live.(history := live.history + [ParsePayload(result).value]))))
  }

  function StepStored(w: World, ta: Ta, cmd: Command): seq<P.Command> {
    match cmd
    case Start(i, rq, luck) => if IsOpen(ta, i) && luck.workspace then ResolveStored(w, ta, i, rq, luck) else []
    case Continue(i, requestId, result, luck) =>
      if IsOpen(ta, i) && Reruns(At(ta, i), requestId, result, luck)
      then ResolveStored(w, Longer(ta, i, result), i, At(ta, i).live.value.request, luck) else []
    case _ => []
  }

  /** The storage commands performed by all sessions, in the order in which they reach storage. */
  function Stored(w: World, ta: Ta, cmds: seq<Command>): seq<P.Command> {
    if cmds == [] then []
    else
      var n := |cmds| - 1;
      Stored(w, ta, cmds[..n]) + StepStored(w, RunAll(w, ta, cmds[..n]), cmds[n])
  }

  // ----- storage is where those commands lead -----

  /** Commands during which power stays on. */
  predicate Powered(cmds: seq<P.Command>) {
    forall i :: 0 <= i < |cmds| ==> cmds[i].publish != CutAfterCreate
  }

  lemma PoweredSurvives(sha: Sha, store: Store, cmds: seq<P.Command>)
    requires Powered(cmds)
    ensures P.Survives(sha, store, cmds)
  {
    hide P.AtPublication, Prepare;
  }

  /** From the first store the commands lead to the second. */
  predicate Leads(sha: Sha, before: Store, cmds: seq<P.Command>, after: Store) {
    Powered(cmds) && P.Run(sha, before, cmds) == after
  }

  lemma LeadsOn(sha: Sha, a: Store, xs: seq<P.Command>, b: Store, ys: seq<P.Command>, c: Store)
    requires Leads(sha, a, xs, b) && Leads(sha, b, ys, c)
    ensures Leads(sha, a, xs + ys, c)
  {
    hide P.Run;
    P.RunSplit(sha, a, xs + ys, |xs|);
    assert (xs + ys)[..|xs|] == xs && (xs + ys)[|xs|..] == ys;
  }

  lemma LeadsNowhere(sha: Sha, store: Store)
    ensures Leads(sha, store, [], store)
  {
  }

  lemma StoringIsStep(sha: Sha, store: Store, call: CommitCall)
    ensures Leads(sha, store, [AsCommand(call)], Storing(sha, store, call).store)
  {
    hide Commit, CommitCatalog, CommitApp;
    var one := [AsCommand(call)];
    assert one[..0] == [];
    assert P.Run(sha, store, one) == P.Step(sha, P.Run(sha, store, one[..0]), one[0]).store;
  }

  lemma AttemptStores(sha: Sha, ta: Ta, i: nat, call: CommitCall)
    requires IsOpen(ta, i)
    ensures var after := Attempt(sha, ta, i, call).ta;
            after.store == if after.log == ta.log then ta.store else Storing(sha, ta.store, call).store
  {
    hide Storing;
    assert ta.log != ta.log + [Attempted(i, QueryDigest(call))];
  }

  lemma ClearStores(ta: Ta, i: nat)
    requires IsOpen(ta, i)
    ensures ClearPending(ta, i).store == ta.store && ClearPending(ta, i).log == ta.log
  {
  }

  lemma HostcallLeads(sha: Sha, ta: Ta, i: nat, verified: bool, call: CommitCall)
    requires IsOpen(ta, i)
    ensures Leads(sha, ta.store, HostcallStored(sha, ta, i, verified, call), CommitHostcall(sha, ta, i, verified, call).ta.store)
  {
    hide Storing, Replays, A.IsAppId, Leads, Attempt, ClearPending;
    AttemptStores(sha, ta, i, call);
    ClearStores(ta, i);
    StoringIsStep(sha, ta.store, call);
    LeadsNowhere(sha, ta.store);
  }

  lemma {:induction false} ExecLeads(w: World, ta: Ta, i: nat, rq: Request, ctx: Context, budget: nat)
    requires IsOpen(ta, i)
    ensures Leads(w.sha, ta.store, ExecStored(w, ta, i, rq, ctx, budget), Exec(w, ta, i, rq, ctx, budget).0.store)
    decreases budget
  {
    hide CommitHostcall, HostcallStored, AnswerIo, Leads;
    LeadsNowhere(w.sha, ta.store);
    if budget > 0 {
      match w.agent(rq)(ctx.trace)
      case Finish(_, _) =>
      case Local(query) =>
        var a := w.local(ta.store, CommitOf(At(ta, i)), rq, ctx.trace, query);
        ExecLeads(w, ta, i, rq, ctx.(trace := ctx.trace + [LocalAnswer(a)]), budget - 1);
      case Io(call) =>
        var (reply, index) := AnswerIo(HistoryOf(At(ta, i)), ctx.index, call);
        var suspended := if reply.MustSuspend? then Some(call) else ctx.suspended;
        ExecLeads(w, ta, i, rq, Context(index, suspended, ctx.trace + [IoAnswer(reply)]), budget - 1);
      case Publish(call) =>
        HostcallLeads(w.sha, ta, i, rq.verified, call);
        var c := CommitHostcall(w.sha, ta, i, rq.verified, call);
        var next := ctx.(trace := ctx.trace + [CommitAnswer(c.status, c.generation)]);
        ExecLeads(w, c.ta, i, rq, next, budget - 1);
        LeadsOn(w.sha, ta.store, HostcallStored(w.sha, ta, i, rq.verified, call), c.ta.store,
                ExecStored(w, c.ta, i, rq, next, budget - 1), Exec(w, ta, i, rq, ctx, budget).0.store);
    }
  }

  lemma ResolveLeads(w: World, ta: Ta, i: nat, rq: Request, luck: Luck)
    requires IsOpen(ta, i)
    ensures Leads(w.sha, ta.store, ResolveStored(w, ta, i, rq, luck), Resolve(w, ta, i, rq, luck).0.store)
  {
    hide Exec, ExecStored, Suspend, Leads;
    LeadsNowhere(w.sha, ta.store);
    if luck.admitted {
      ExecLeads(w, ta, i, rq, START, w.budget);
      var (ran, e) := Exec(w, ta, i, rq, START, w.budget);
      if e.suspended.Some? {
        Protocol.SuspendKeepsLive(w.sha, ran, i, IoOf(rq, e.suspended.value), luck.memory, luck.fits);
      }
    }
  }

  lemma StepLeads(w: World, ta: Ta, cmd: Command)
    ensures Leads(w.sha, ta.store, StepStored(w, ta, cmd), Step(w, ta, cmd).store)
  {
    hide Resolve, ResolveStored, Abort, AsksHostIo, Suspend, ParsePayload, Awaits, Leads;
    LeadsNowhere(w.sha, ta.store);
    if !cmd.Open? && IsOpen(ta, cmd.session) {
      var i := cmd.session;
      Protocol.AbortAccounted(ta, i);
      match cmd
      case Close(_) =>
      case Probe(_, q, luck) => Protocol.SuspendKeepsLive(w.sha, ta, i, q, luck.memory, luck.fits);
      case Start(_, rq, luck) =>
        ResolveLeads(w, ta, i, rq, luck);
        Protocol.AbortAccounted(Resolve(w, ta, i, rq, luck).0, i);
      case Continue(_, requestId, result, luck) =>
        if Reruns(At(ta, i), requestId, result, luck) {
          var longer, rq := Longer(ta, i, result), At(ta, i).live.value.request;
          ResolveLeads(w, longer, i, rq, luck);
          Protocol.AbortAccounted(Resolve(w, longer, i, rq, luck).0, i);
        }
    }
  }

  /**
   * Whatever the sessions do, protected storage is where the commands they stored lead, without a power cut: every theorem
   * about such sequences of commands is one about the sessions.
   */
  lemma {:induction false} SessionsLead(w: World, ta: Ta, cmds: seq<Command>)
    ensures Leads(w.sha, ta.store, Stored(w, ta, cmds), RunAll(w, ta, cmds).store)
    decreases |cmds|
  {
    hide Step, StepStored, Leads;
    if cmds == [] {
      LeadsNowhere(w.sha, ta.store);
    } else {
      var n := |cmds| - 1;
      SessionsLead(w, ta, cmds[..n]);
      var before := RunAll(w, ta, cmds[..n]);
      StepLeads(w, before, cmds[n]);
      LeadsOn(w.sha, ta.store, Stored(w, ta, cmds[..n]), before.store, StepStored(w, before, cmds[n]), RunAll(w, ta, cmds).store);
    }
  }

  // ----- which acceptances they make -----

  /** No plain acceptance names a barred id. */
  predicate NoneBarred(cmds: seq<P.Command>, barred: bytes -> bool) {
    forall i :: 0 <= i < |cmds| && cmds[i].Plain? ==> !barred(cmds[i].accept.id)
  }

  /** The agent never asks for such an acceptance. */
  ghost predicate Spares(agent: Agent, barred: bytes -> bool) {
    forall t :: agent(t).Publish? && agent(t).commit.AcceptCall? ==> !barred(agent(t).commit.accept.id)
  }

  /** Every request started is one for an agent that spares the barred ids. */
  ghost predicate StartsSpare(w: World, cmds: seq<Command>, barred: bytes -> bool) {
    forall k :: 0 <= k < |cmds| && cmds[k].Start? ==> Spares(w.agent(cmds[k].request), barred)
  }

  /** So is every request that is live. */
  ghost predicate LiveSpares(w: World, ta: Ta, barred: bytes -> bool) {
    forall j :: 0 <= j < |ta.sessions| && ta.sessions[j].Some? && ta.sessions[j].value.live.Some? ==>
                  Spares(w.agent(ta.sessions[j].value.live.value.request), barred)
  }

  lemma {:induction false} ExecSpares(w: World, ta: Ta, i: nat, rq: Request, ctx: Context, budget: nat, barred: bytes -> bool)
    requires IsOpen(ta, i) && Spares(w.agent(rq), barred)
    ensures NoneBarred(ExecStored(w, ta, i, rq, ctx, budget), barred)
    decreases budget
  {
    hide CommitHostcall, AnswerIo;
    if budget > 0 {
      match w.agent(rq)(ctx.trace)
      case Finish(_, _) =>
      case Local(query) =>
        var a := w.local(ta.store, CommitOf(At(ta, i)), rq, ctx.trace, query);
        ExecSpares(w, ta, i, rq, ctx.(trace := ctx.trace + [LocalAnswer(a)]), budget - 1, barred);
      case Io(call) =>
        var (reply, index) := AnswerIo(HistoryOf(At(ta, i)), ctx.index, call);
        var suspended := if reply.MustSuspend? then Some(call) else ctx.suspended;
        ExecSpares(w, ta, i, rq, Context(index, suspended, ctx.trace + [IoAnswer(reply)]), budget - 1, barred);
      case Publish(call) =>
        var c := CommitHostcall(w.sha, ta, i, rq.verified, call);
        ExecSpares(w, c.ta, i, rq, ctx.(trace := ctx.trace + [CommitAnswer(c.status, c.generation)]), budget - 1, barred);
    }
  }

  /** Every live request of the second state was live, in the same session, in the first. */
  predicate LiveFrom(a: Ta, b: Ta) {
    |a.sessions| == |b.sessions|
    && forall j :: 0 <= j < |b.sessions| && b.sessions[j].Some? && b.sessions[j].value.live.Some? ==>
                     a.sessions[j].Some? && a.sessions[j].value.live.Some?
                     && a.sessions[j].value.live.value.request == b.sessions[j].value.live.value.request
  }

  lemma HostcallLive(sha: Sha, ta: Ta, i: nat, verified: bool, call: CommitCall)
    requires IsOpen(ta, i)
    ensures LiveFrom(ta, CommitHostcall(sha, ta, i, verified, call).ta)
  {
    hide Storing, Replays, A.IsAppId;
  }

  lemma SuspendLive(sha: Sha, ta: Ta, i: nat, q: IoRequest, memory: bool, fits: bool)
    requires IsOpen(ta, i)
    ensures LiveFrom(ta, Suspend(sha, ta, i, q, memory, fits).0)
  {
  }

  lemma AbortLive(ta: Ta, i: nat)
    requires IsOpen(ta, i)
    ensures LiveFrom(ta, Abort(ta, i))
  {
  }

  lemma {:induction false} ExecLive(w: World, ta: Ta, i: nat, rq: Request, ctx: Context, budget: nat)
    requires IsOpen(ta, i)
    ensures LiveFrom(ta, Exec(w, ta, i, rq, ctx, budget).0)
    decreases budget
  {
    hide CommitHostcall, AnswerIo;
    if budget > 0 {
      match w.agent(rq)(ctx.trace)
      case Finish(_, _) =>
      case Local(query) =>
        var a := w.local(ta.store, CommitOf(At(ta, i)), rq, ctx.trace, query);
        ExecLive(w, ta, i, rq, ctx.(trace := ctx.trace + [LocalAnswer(a)]), budget - 1);
      case Io(call) =>
        var (reply, index) := AnswerIo(HistoryOf(At(ta, i)), ctx.index, call);
        var suspended := if reply.MustSuspend? then Some(call) else ctx.suspended;
        ExecLive(w, ta, i, rq, Context(index, suspended, ctx.trace + [IoAnswer(reply)]), budget - 1);
      case Publish(call) =>
        HostcallLive(w.sha, ta, i, rq.verified, call);
        var c := CommitHostcall(w.sha, ta, i, rq.verified, call);
        ExecLive(w, c.ta, i, rq, ctx.(trace := ctx.trace + [CommitAnswer(c.status, c.generation)]), budget - 1);
    }
  }

  lemma ResolveLive(w: World, ta: Ta, i: nat, rq: Request, luck: Luck)
    requires IsOpen(ta, i)
    ensures LiveFrom(ta, Resolve(w, ta, i, rq, luck).0)
  {
    hide Exec, Suspend;
    ExecLive(w, ta, i, rq, START, w.budget);
    var (ran, e) := Exec(w, ta, i, rq, START, w.budget);
    if e.suspended.Some? {
      SuspendLive(w.sha, ran, i, IoOf(rq, e.suspended.value), luck.memory, luck.fits);
    }
  }

  /** Only a start makes a request live, and it is the request that was started. */
  lemma StepLive(w: World, ta: Ta, cmd: Command, barred: bytes -> bool)
    requires LiveSpares(w, ta, barred) && (cmd.Start? ==> Spares(w.agent(cmd.request), barred))
    ensures LiveSpares(w, Step(w, ta, cmd), barred)
  {
    hide Resolve, Abort, AsksHostIo, Suspend, ParsePayload, Awaits, Spares;
    if !cmd.Open? && IsOpen(ta, cmd.session) {
      var i := cmd.session;
      AbortLive(ta, i);
      match cmd
      case Close(_) =>
      case Probe(_, q, luck) => SuspendLive(w.sha, ta, i, q, luck.memory, luck.fits);
      case Start(_, rq, luck) =>
        ResolveLive(w, ta, i, rq, luck);
        AbortLive(Resolve(w, ta, i, rq, luck).0, i);
      case Continue(_, requestId, result, luck) => ResumeLive(w, ta, i, requestId, result, luck);
    }
  }

  lemma ResumeLive(w: World, ta: Ta, i: nat, requestId: bytes, result: bytes, luck: Luck)
    requires IsOpen(ta, i)
    ensures LiveFrom(ta, Resume(w, ta, i, requestId, result, luck).0)
  {
    hide Resolve, Abort, AsksHostIo, ParsePayload, Awaits;
    AbortLive(ta, i);
    if Reruns(At(ta, i), requestId, result, luck) {
      var longer, rq := Longer(ta, i, result), At(ta, i).live.value.request;
      ResolveLive(w, longer, i, rq, luck);
      AbortLive(Resolve(w, longer, i, rq, luck).0, i);
    }
  }

  lemma StepSpares(w: World, ta: Ta, cmd: Command, barred: bytes -> bool)
    requires LiveSpares(w, ta, barred) && (cmd.Start? ==> Spares(w.agent(cmd.request), barred))
    ensures NoneBarred(StepStored(w, ta, cmd), barred)
  {
    hide ExecStored, ParsePayload, Awaits, Spares;
    match cmd
    case Start(i, rq, luck) =>
      if IsOpen(ta, i) {
        ExecSpares(w, ta, i, rq, START, w.budget, barred);
      }
    case Continue(i, requestId, result, luck) =>
      if IsOpen(ta, i) && Reruns(At(ta, i), requestId, result, luck) {
        ExecSpares(w, Longer(ta, i, result), i, At(ta, i).live.value.request, START, w.budget, barred);
      }
    case _ =>
  }

  /** If the started agents spare the barred ids, no acceptance stored in the run names one. */
  lemma {:induction false} SessionsSpare(w: World, ta: Ta, cmds: seq<Command>, barred: bytes -> bool)
    requires LiveSpares(w, ta, barred) && StartsSpare(w, cmds, barred)
    ensures NoneBarred(Stored(w, ta, cmds), barred) && LiveSpares(w, RunAll(w, ta, cmds), barred)
    decreases |cmds|
  {
    hide Step, StepStored, LiveSpares, Spares;
    if cmds != [] {
      var n := |cmds| - 1;
      SessionsSpare(w, ta, cmds[..n], barred);
      var before := RunAll(w, ta, cmds[..n]);
      StepSpares(w, before, cmds[n], barred);
      StepLive(w, before, cmds[n], barred);
    }
  }

  // ----- the theorems -----

  /**
   * Over every interleaving of sessions the state keeps loading, its generation rises by one for each stored command that
   * takes effect and by nothing else, and no sequence falls.
   */
  lemma SessionsAreMonotone(w: World, store: Store, cmds: seq<Command>)
    requires LoadCurrent(store).Done?
    ensures var r := LoadCurrent(RunAll(w, Initial(store), cmds).store);
            r.Done? && P.Descends(LoadCurrent(store).value, r.value)
            && r.value.generation
               == LoadCurrent(store).value.generation + P.Effects(w.sha, store, Stored(w, Initial(store), cmds))
  {
    hide LoadCurrent, RunAll, Stored, P.Run, P.Survives, P.Descends, P.Effects;
    var stored := Stored(w, Initial(store), cmds);
    SessionsLead(w, Initial(store), cmds);
    PoweredSurvives(w.sha, store, stored);
    P.MonotoneHistory(w.sha, store, stored);
  }

  /**
   * From a store without catalog objects, over every interleaving of sessions whose agents never accept the catalog id by
   * a plain acceptance, the active catalog is the one last published by any of them, or not found.
   */
  lemma SessionsCatalogAtomicity(w: World, store: Store, cmds: seq<Command>)
    requires Atomicity.CatalogFresh(store) && StartsSpare(w, cmds, id => id == C.DEFAULT_ID)
    ensures var r := LoadActiveCatalog(w.sha, RunAll(w, Initial(store), cmds).store);
            match P.LastPublished(w.sha, store, Stored(w, Initial(store), cmds)).catalog
            case None => r == Err(ItemNotFound)
            case Some(c) => r.Done? && r.value.1 == c
  {
    hide LoadCurrent, RunAll, Stored, P.Run, P.Survives, P.LastPublished, LoadActiveCatalog, StartsSpare;
    var stored := Stored(w, Initial(store), cmds);
    SessionsLead(w, Initial(store), cmds);
    SessionsSpare(w, Initial(store), cmds, id => id == C.DEFAULT_ID);
    PoweredSurvives(w.sha, store, stored);
    Atomicity.CatalogAtomicity(w.sha, store, stored);
  }

  /**
   * From a store without application objects, over every interleaving of sessions whose agents never accept an application
   * id by a plain acceptance, the active application is the one last published by any of them, or there is none.
   */
  lemma SessionsAppAtomicity(w: World, store: Store, cmds: seq<Command>)
    requires Atomicity.AppFresh(store) && StartsSpare(w, cmds, id => A.IsAppId(id))
    ensures var end := RunAll(w, Initial(store), cmds).store; var r := LoadActiveApp(w.sha, end);
            match P.LastPublished(w.sha, store, Stored(w, Initial(store), cmds)).app
            case None => r == Err(if App(0) in end then CorruptObject else ItemNotFound)
            case Some(a) => r.Done? && r.value.1 == a
  {
    hide LoadCurrent, RunAll, Stored, P.Run, P.Survives, P.LastPublished, LoadActiveApp, StartsSpare, A.IsAppId;
    var stored := Stored(w, Initial(store), cmds);
    SessionsLead(w, Initial(store), cmds);
    SessionsSpare(w, Initial(store), cmds, id => A.IsAppId(id));
    PoweredSurvives(w.sha, store, stored);
    Atomicity.AppAtomicity(w.sha, store, stored);
  }

  /** The exact condition, for any agents: what the sessions show is right throughout as long as no acceptance disturbs it. */
  lemma SessionsAtomicityIff(w: World, store: Store, cmds: seq<Command>)
    ensures var stored := Stored(w, Initial(store), cmds);
            && RunAll(w, Initial(store), cmds).store == P.Run(w.sha, store, stored)
            && (Atomicity.CatalogFresh(store) ==>
                  (Atomicity.CatalogAlwaysShown(w.sha, store, stored) <==> Atomicity.CatalogUndisturbed(w.sha, store, stored)))
            && (Atomicity.AppFresh(store) ==>
                  (Atomicity.AppAlwaysShown(w.sha, store, stored) <==> Atomicity.AppUndisturbed(w.sha, store, stored)))
  {
    hide LoadCurrent, RunAll, Stored, P.Run, P.Survives, Atomicity.CatalogFresh, Atomicity.AppFresh, Atomicity.CatalogAlwaysShown,
      Atomicity.CatalogUndisturbed, Atomicity.AppAlwaysShown, Atomicity.AppUndisturbed;
    var stored := Stored(w, Initial(store), cmds);
    SessionsLead(w, Initial(store), cmds);
    PoweredSurvives(w.sha, store, stored);
    if Atomicity.CatalogFresh(store) {
      Atomicity.CatalogAtomicityIff(w.sha, store, stored);
    }
    if Atomicity.AppFresh(store) {
      Atomicity.AppAtomicityIff(w.sha, store, stored);
    }
  }
}

/** What the continuation protocol promises, over every run of every interleaving of sessions. */
module Protocol {
  import opened Bytes
  import opened Tee
  import opened HostIoResult
  import opened Continuation
  import opened Quota
  import opened AcceptanceStore
  import A = AppRecord
  import ProtectedState

  /**
   * At every command boundary the shared count is the number of sessions holding an HTTP transcript and the
   * shared total is the sum of their bodies, within all three limits; clearing any session is exact.
   */
  lemma TranscriptQuota(w: World, store: Store, cmds: seq<Command>, i: nat)
    ensures var ta := RunAll(w, Initial(store), cmds);
            ta.count == Holders(ta.sessions) <= COUNT_MAX && ta.total == BodyBytes(ta.sessions) <= AGGREGATE_MAX
            && (i < |ta.sessions| ==> BodyLength(ta.sessions[i]) <= TRANSCRIPT_MAX)
            && (IsOpen(ta, i) ==> One(ta.sessions[i]) <= ta.count && BodyLength(ta.sessions[i]) <= ta.total)
  {
    hide RunAll, Holders, BodyBytes, SingleUse;
    EveryRunGood(w, store, cmds);
    var ta := RunAll(w, Initial(store), cmds);
    Bounded(ta.sessions);
    if IsOpen(ta, i) {
      ClearKeeps(ta, i);
    }
  }

  // ----- single use -----

  function Saves(log: seq<Event>, i: nat): nat {
    if log == [] then 0
    else Saves(log[..|log| - 1], i) + if log[|log| - 1].Saved? && log[|log| - 1].session == i then 1 else 0
  }

  function Attempts(log: seq<Event>, i: nat): nat {
    if log == [] then 0
    else Attempts(log[..|log| - 1], i) + if log[|log| - 1].Attempted? && log[|log| - 1].session == i then 1 else 0
  }

  lemma {:induction false} PairedCounts(log: seq<Event>, i: nat)
    requires Paired(log)
    ensures var last := LastOf(log, i);
            Attempts(log, i) + (if last.Some? && last.value.Saved? then 1 else 0) <= Saves(log, i)
  {
    if log != [] {
      PairedCounts(log[..|log| - 1], i);
    }
  }

  /** In no run do a session's storage commits outnumber the transcripts it saved; each used the latest one. */
  lemma TranscriptsAreSingleUse(w: World, store: Store, cmds: seq<Command>, i: nat)
    ensures var log := RunAll(w, Initial(store), cmds).log; Paired(log) && Attempts(log, i) <= Saves(log, i)
  {
    hide RunAll, Attempts, Saves, LastOf, Paired, Conserved;
    EveryRunGood(w, store, cmds);
    PairedCounts(RunAll(w, Initial(store), cmds).log, i);
  }

  lemma AttemptLogged(log: seq<Event>, e: Event, i: nat)
    ensures Attempts(log + [e], i) == Attempts(log, i) + if e.Attempted? && e.session == i then 1 else 0
  {
    assert (log + [e])[..|log|] == log;
  }

  /** A commit call changes storage only under a transcript with its own digest, which it uses up. */
  lemma StorageNeedsTranscript(sha: bytes -> digest, ta: Ta, i: nat, verified: bool, call: CommitCall)
    requires IsOpen(ta, i)
    ensures var c := CommitHostcall(sha, ta, i, verified, call);
            if HoldsHttp(ta.sessions[i]) && At(ta, i).pending.value.bodySha == QueryDigest(call) && c.ta.log != ta.log
            then c.ta.log == ta.log + [Attempted(i, QueryDigest(call))] && At(c.ta, i).pending.None?
            else c.ta.store == ta.store && c.ta.log == ta.log
  {
    hide Storing, Replays, A.IsAppId;
    assert ta.log != ta.log + [Attempted(i, QueryDigest(call))];
  }

  /** Storage has changed only if this session has attempted more commits. */
  predicate Accounted(before: Ta, after: Ta, i: nat) {
    Attempts(before.log, i) <= Attempts(after.log, i)
    && (after.store != before.store ==> Attempts(before.log, i) < Attempts(after.log, i))
  }

  lemma CommitAccounted(sha: bytes -> digest, ta: Ta, i: nat, verified: bool, call: CommitCall)
    requires IsOpen(ta, i)
    ensures Accounted(ta, CommitHostcall(sha, ta, i, verified, call).ta, i)
  {
    hide CommitHostcall, Attempts, HoldsHttp;
    StorageNeedsTranscript(sha, ta, i, verified, call);
    AttemptLogged(ta.log, Attempted(i, QueryDigest(call)), i);
  }

  lemma {:induction false} ExecAccounted(w: World, ta: Ta, i: nat, rq: Request, ctx: Context, budget: nat)
    requires IsOpen(ta, i)
    ensures Accounted(ta, Exec(w, ta, i, rq, ctx, budget).0, i)
    decreases budget
  {
    hide CommitHostcall, AnswerIo, Attempts;
    if budget > 0 {
      match w.agent(rq)(ctx.trace)
      case Finish(_, _) =>
      case Local(query) =>
        var a := w.local(ta.store, CommitOf(At(ta, i)), rq, ctx.trace, query);
        ExecAccounted(w, ta, i, rq, ctx.(trace := ctx.trace + [LocalAnswer(a)]), budget - 1);
      case Io(call) =>
        var (reply, index) := AnswerIo(HistoryOf(At(ta, i)), ctx.index, call);
        var suspended := if reply.MustSuspend? then Some(call) else ctx.suspended;
        ExecAccounted(w, ta, i, rq, Context(index, suspended, ctx.trace + [IoAnswer(reply)]), budget - 1);
      case Publish(call) =>
        CommitAccounted(w.sha, ta, i, rq.verified, call);
        var c := CommitHostcall(w.sha, ta, i, rq.verified, call);
        ExecAccounted(w, c.ta, i, rq, ctx.(trace := ctx.trace + [CommitAnswer(c.status, c.generation)]), budget - 1);
    }
  }

  lemma SuspendAccounted(sha: bytes -> digest, ta: Ta, i: nat, q: IoRequest, memory: bool, fits: bool)
    requires IsOpen(ta, i)
    ensures var r := Suspend(sha, ta, i, q, memory, fits).0;
            r.store == ta.store && Attempts(r.log, i) == Attempts(ta.log, i)
  {
    hide Attempts;
    AttemptLogged(ta.log, Saved(i, sha(q.body)), i);
  }

  lemma AbortAccounted(ta: Ta, i: nat)
    requires IsOpen(ta, i)
    ensures Abort(ta, i).store == ta.store && Abort(ta, i).log == ta.log
  {
  }

  lemma ResolveAccounted(w: World, ta: Ta, i: nat, rq: Request, luck: Luck)
    requires IsOpen(ta, i)
    ensures Accounted(ta, Resolve(w, ta, i, rq, luck).0, i)
  {
    hide Exec, Suspend, Attempts;
    ExecAccounted(w, ta, i, rq, START, w.budget);
    var (ran, e) := Exec(w, ta, i, rq, START, w.budget);
    if e.suspended.Some? {
      SuspendAccounted(w.sha, ran, i, IoOf(rq, e.suspended.value), luck.memory, luck.fits);
    }
  }

  /** No command changes protected storage except by attempts, in its own session, that consume transcripts. */
  lemma StorageIsAccounted(w: World, ta: Ta, cmd: Command)
    ensures Step(w, ta, cmd).store != ta.store ==>
              !cmd.Open? && Attempts(ta.log, cmd.session) < Attempts(Step(w, ta, cmd).log, cmd.session)
  {
    hide Resolve, Abort, Attempts, AsksHostIo, Suspend, ParsePayload, Awaits;
    if !cmd.Open? && IsOpen(ta, cmd.session) {
      var i := cmd.session;
      AbortAccounted(ta, i);
      match cmd
      case Close(_) =>
      case Probe(_, q, luck) => SuspendAccounted(w.sha, ta, i, q, luck.memory, luck.fits);
      case Start(_, rq, luck) =>
        ResolveAccounted(w, ta, i, rq, luck);
        AbortAccounted(Resolve(w, ta, i, rq, luck).0, i);
      case Continue(_, _, result, luck) =>
        var s, p := At(ta, i), ParsePayload(result);
        if s.live.Some? && p.Done? {
          var live := s.live.value;
          var longer := Put(ta, i, s.(live := Some(live.(history := live.history + [p.value]))));
          ResolveAccounted(w, longer, i, live.request, luck);
          AbortAccounted(Resolve(w, longer, i, live.request, luck).0, i);
        }
    }
  }

  // ----- a recorded commit -----

  predicate HasRecorded(s: Session, rq: Request, c: CommitRecord) {
    s.live.Some? && s.live.value.request == rq && s.live.value.commit == Some(c)
  }

  /** The four slots that hold catalogs and applications are as they were. */
  predicate SameComponents(a: Store, b: Store) {
    SameAt(a, b, Catalog(0)) && SameAt(a, b, Catalog(1)) && SameAt(a, b, App(0)) && SameAt(a, b, App(1))
  }

  /** The agent publishes catalogs and applications only, never a plain acceptance. */
  ghost predicate ComponentsOnly(agent: Agent) {
    forall t :: agent(t).Publish? ==> !agent(t).commit.AcceptCall?
  }

  /** With a commit recorded, an acceptance leaves the component slots alone and any other commit call all of storage. */
  lemma CommitIsFrozen(sha: bytes -> digest, ta: Ta, i: nat, verified: bool, call: CommitCall, rq: Request, c: CommitRecord)
    requires IsOpen(ta, i) && HasRecorded(At(ta, i), rq, c)
    ensures var r := CommitHostcall(sha, ta, i, verified, call);
            SameComponents(ta.store, r.ta.store) && HasRecorded(At(r.ta, i), rq, c)
            && (!call.AcceptCall? ==> r.ta.store == ta.store)
  {
    hide Replays, A.IsAppId, Commit;
    if call.AcceptCall? {
      ProtectedState.CommitFrame(ta.store, call.accept, call.publish);
    }
  }

  /** What one run of any agent leaves once a commit is recorded in the live request. */
  predicate Frozen(before: Ta, after: Ta, i: nat, rq: Request, c: CommitRecord) {
    IsOpen(after, i) && SameComponents(before.store, after.store) && HasRecorded(At(after, i), rq, c)
  }

  lemma {:induction false} ExecIsFrozen(w: World, ta: Ta, i: nat, run: Request, ctx: Context, budget: nat, rq: Request, c: CommitRecord)
    requires IsOpen(ta, i) && HasRecorded(At(ta, i), rq, c)
    ensures Frozen(ta, Exec(w, ta, i, run, ctx, budget).0, i, rq, c)
    ensures ComponentsOnly(w.agent(run)) ==> Exec(w, ta, i, run, ctx, budget).0.store == ta.store
    decreases budget
  {
    hide CommitHostcall, AnswerIo, HasRecorded;
    if budget > 0 {
      match w.agent(run)(ctx.trace)
      case Finish(_, _) =>
      case Local(query) =>
        var a := w.local(ta.store, CommitOf(At(ta, i)), run, ctx.trace, query);
        ExecIsFrozen(w, ta, i, run, ctx.(trace := ctx.trace + [LocalAnswer(a)]), budget - 1, rq, c);
      case Io(call) =>
        var (reply, index) := AnswerIo(HistoryOf(At(ta, i)), ctx.index, call);
        var suspended := if reply.MustSuspend? then Some(call) else ctx.suspended;
        ExecIsFrozen(w, ta, i, run, Context(index, suspended, ctx.trace + [IoAnswer(reply)]), budget - 1, rq, c);
      case Publish(call) =>
        CommitIsFrozen(w.sha, ta, i, run.verified, call, rq, c);
        var d := CommitHostcall(w.sha, ta, i, run.verified, call);
        ExecIsFrozen(w, d.ta, i, run, ctx.(trace := ctx.trace + [CommitAnswer(d.status, d.generation)]), budget - 1, rq, c);
    }
  }

  lemma SuspendKeepsLive(sha: bytes -> digest, ta: Ta, i: nat, q: IoRequest, memory: bool, fits: bool)
    requires IsOpen(ta, i)
    ensures var r := Suspend(sha, ta, i, q, memory, fits).0; r.store == ta.store && At(r, i).live == At(ta, i).live
  {
  }

  /**
   * Once a catalog or application commit is recorded in a live request, a further resume of that request, whatever its
   * agent does, leaves every catalog and application slot alone, and either ends the request or keeps the record. If the
   * agent makes no plain acceptances either, it leaves all of protected storage alone.
   */
  lemma RecordedCommitIsFinal(w: World, ta: Ta, i: nat, requestId: bytes, result: bytes, luck: Luck, rq: Request, c: CommitRecord)
    requires IsOpen(ta, i) && HasRecorded(At(ta, i), rq, c)
    ensures var r := Resume(w, ta, i, requestId, result, luck).0;
            SameComponents(ta.store, r.store) && (At(r, i).live.None? || HasRecorded(At(r, i), rq, c))
            && (ComponentsOnly(w.agent(rq)) ==> r.store == ta.store)
  {
    hide Exec, Suspend, ParsePayload, Awaits, AsksHostIo, ComponentsOnly;
    var s, p := At(ta, i), ParsePayload(result);
    AbortClears(ta, i);
    if p.Done? {
      var live := s.live.value;
      var longer := Put(ta, i, s.(live := Some(live.(history := live.history + [p.value]))));
      ExecIsFrozen(w, longer, i, rq, START, w.budget, rq, c);
      var (ran, e) := Exec(w, longer, i, rq, START, w.budget);
      if e.suspended.Some? {
        SuspendKeepsLive(w.sha, ran, i, IoOf(rq, e.suspended.value), luck.memory, luck.fits);
      }
      AbortClears(Resolve(w, longer, i, rq, luck).0, i);
    }
  }

  /** Any number of resumes, one after the other. */
  function ResumeAll(w: World, ta: Ta, i: nat, tries: seq<(bytes, bytes, Luck)>): (r: Ta)
    requires IsOpen(ta, i)
    ensures IsOpen(r, i)
  {
    if tries == [] then ta
    else
      var n := |tries| - 1;
      Resume(w, ResumeAll(w, ta, i, tries[..n]), i, tries[n].0, tries[n].1, tries[n].2).0
  }

  lemma NoRequestNoChange(w: World, ta: Ta, i: nat, requestId: bytes, result: bytes, luck: Luck)
    requires IsOpen(ta, i) && At(ta, i).live.None?
    ensures var r := Resume(w, ta, i, requestId, result, luck).0; r.store == ta.store && At(r, i).live.None?
  {
    hide Awaits;
  }

  /** However often the request is resumed, its recorded commit was the last one of it to touch a component slot. */
  lemma {:induction false} RecordedCommitStaysFinal(w: World, ta: Ta, i: nat, tries: seq<(bytes, bytes, Luck)>, rq: Request,
                                                    c: CommitRecord)
    requires IsOpen(ta, i) && HasRecorded(At(ta, i), rq, c)
    ensures var r := ResumeAll(w, ta, i, tries);
            SameComponents(ta.store, r.store) && (At(r, i).live.None? || HasRecorded(At(r, i), rq, c))
    decreases |tries|
  {
    hide Resume, HasRecorded;
    if tries != [] {
      var n := |tries| - 1;
      RecordedCommitStaysFinal(w, ta, i, tries[..n], rq, c);
      var before := ResumeAll(w, ta, i, tries[..n]);
      if At(before, i).live.None? {
        NoRequestNoChange(w, before, i, tries[n].0, tries[n].1, tries[n].2);
      } else {
        RecordedCommitIsFinal(w, before, i, tries[n].0, tries[n].1, tries[n].2, rq, c);
      }
    }
  }

  lemma AbortClears(ta: Ta, i: nat)
    requires IsOpen(ta, i)
    ensures Abort(ta, i).store == ta.store && At(Abort(ta, i), i) == Session(None, None)
  {
  }

  // ----- resume matching -----

  /** A resume that does not repeat the pending call exactly leaves every session and counter as it was. */
  lemma MismatchedResumeIsInert(w: World, ta: Ta, i: nat, requestId: bytes, result: bytes, luck: Luck)
    requires IsOpen(ta, i)
    requires var p := At(ta, i).pending;
             p.None? || requestId != p.value.requestId || Fields(result).None?
             || (At(ta, i).live.Some? && requestId != At(ta, i).live.value.request.requestId)
             || !AllWellTyped(Fields(result).value) || !Answers(Fields(result).value, p.value)
    ensures Resume(w, ta, i, requestId, result, luck) == (ta, Failed)
  {
    hide Fields, AllWellTyped, Answers, ResultOk;
    var p := At(ta, i).pending;
    if p.Some? {
      ResultOkIff(result, p.value);
    }
  }
}

/**
 * The trusted application's runtime as it works: per-session structs and two global counters updated in place
 * over one protected storage. Every method is proved against the function of the protocol it carries out.
 */
module Runtime {
  import opened Bytes
  import opened Tee
  import opened HostIoResult
  import opened HostIoCursor
  import opened AcceptanceStore
  import opened CatalogStore
  import opened AppStore
  import opened Continuation
  import opened Quota
  import opened SecureStorage
  import A = AppRecord
  import C = CatalogRecord

  class Runtime {
    var sessions: seq<Option<Session>>
    var count: nat
    var total: nat
    ghost var log: seq<Event>
    const storage: Storage

    constructor (storage: Storage)
      ensures this.storage == storage && State() == Initial(storage.objects) && Valid()
    {
      this.storage := storage;
      sessions, count, total, log := [], 0, 0, [];
    }

    ghost function State(): Ta
      reads this, storage
    {
      Ta(sessions, count, total, storage.objects, log)
    }

    /** The shared counters describe the sessions, and every transcript held is still unused. */
    ghost predicate Valid()
      reads this, storage
    {
      Quota.Good(State())
    }

    /** twep_ta_session_open. */
    method OpenSession() returns (i: nat)
      requires Valid()
      modifies this
      ensures Valid()
      ensures State() == old(State()).(sessions := old(sessions) + [Some(Session(None, None))]) && i == |old(sessions)|
    {
      hide Holders, BodyBytes, LastOf, Paired;
      i := |sessions|;
      Appended(sessions, Some(Session(None, None)));
      sessions := sessions + [Some(Session(None, None))];
    }

    /** pending_host_io_clear; its two guards against underflow always hold. */
    method PendingHostIoClear(i: nat)
      requires IsOpen(State(), i) && Conserved(State())
      modifies this
      ensures State() == ClearPending(old(State()), i) && Conserved(State())
      ensures count == old(count) - One(old(sessions[i])) && total == old(total) - BodyLength(old(sessions[i]))
      ensures old(Valid()) ==> Valid()
    {
      hide Holders, BodyBytes, LastOf, Paired;
      ghost var before := State();
      ClearKeeps(before, i);
      if Quota.Good(before) {
        ClearGood(before, i);
      }
      var s := sessions[i].value;
      if s.pending.Some? && s.pending.value.kind == HttpPost {
        var n := |s.pending.value.body|;
        assert count > 0 && total >= n;
        count, total := count - 1, total - n;
      }
      sessions := sessions[i := Some(s.(pending := None))];
    }

    /** save_pending_host_io_request, with the limits in the order they are tested. */
    method SavePendingHostIoRequest(sha: Sha, i: nat, q: IoRequest, memory: bool) returns (ok: bool)
      requires IsOpen(State(), i) && Valid()
      modifies this
      ensures Valid()
      ensures (State(), ok) == SavePending(sha, old(State()), i, q, memory)
    {
      hide Quota.Good, Conserved;
      SaveGood(sha, State(), i, q, memory);
      GoodIsConserved(State());
      PendingHostIoClear(i);
      if q.kind == HttpPost {
        if |q.body| > TRANSCRIPT_MAX || count >= COUNT_MAX || total > AGGREGATE_MAX || |q.body| > AGGREGATE_MAX - total {
          return false;
        }
      }
      if |q.requestId| == 0 || |q.requestId| >= 64 || |q.command| == 0 || |q.command| >= 64 || |q.ioId| >= 64 {
        return false;
      }
      if !memory {
        return false;
      }
      var p := PendingOf(sha, q);
      sessions := sessions[i := Some(sessions[i].value.(pending := Some(p)))];
      if q.kind == HttpPost {
        count := count + 1;
        total := total + |q.body|;
        log := log + [Saved(i, p.bodySha)];
      }
      return true;
    }

    /** build_need_host_io_response: saves first, clears again when the response does not fit. */
    method BuildNeedHostIo(sha: Sha, i: nat, q: IoRequest, memory: bool, fits: bool) returns (ok: bool)
      requires IsOpen(State(), i) && Valid()
      modifies this
      ensures Valid()
      ensures (State(), ok) == Suspend(sha, old(State()), i, q, memory, fits)
    {
      hide SavePending, ClearPending, Quota.Good, Conserved;
      SuspendGood(sha, State(), i, q, memory, fits);
      ok := SavePendingHostIoRequest(sha, i, q, memory);
      if ok && !fits {
        GoodIsConserved(State());
        PendingHostIoClear(i);
        ok := false;
      }
    }

    /** teep_agent_live_abort. */
    method LiveAbort(i: nat)
      requires IsOpen(State(), i) && Valid()
      modifies this
      ensures Valid()
      ensures State() == Abort(old(State()), i)
      ensures count == old(count) - One(old(sessions[i])) && total == old(total) - BodyLength(old(sessions[i]))
    {
      hide ClearPending, Quota.Good, Conserved;
      AbortGood(State(), i);
      GoodIsConserved(State());
      PendingHostIoClear(i);
      sessions := sessions[i := Some(sessions[i].value.(live := None))];
    }

    /** twep_ta_session_close. */
    method CloseSession(i: nat)
      requires IsOpen(State(), i) && Valid()
      modifies this
      ensures Valid()
      ensures var c := Abort(old(State()), i); State() == c.(sessions := c.sessions[i := None])
    {
      hide Abort, Quota.Good;
      CloseGood(State(), i);
      LiveAbort(i);
      sessions := sessions[i := None];
    }

    /** The gate on the pending transcript, the storage commit, the record, and the use of the transcript. */
    method GatedCommit(sha: Sha, i: nat, call: CommitCall) returns (status: nat, generation: u64)
      requires IsOpen(State(), i) && Valid()
      modifies this, storage
      ensures Valid()
      ensures Called(State(), status, generation) == Attempt(sha, old(State()), i, call)
    {
      hide ClearPending, Commit, CommitCatalog, CommitApp, Quota.Good, Conserved;
      AttemptGood(sha, State(), i, call);
      GoodIsConserved(State());
      ghost var before := State();
      var s := sessions[i].value;
      if s.pending.None? || s.pending.value.kind != HttpPost {
        return 9, 0;
      }
      if s.pending.value.bodySha != QueryDigest(call) {
        PendingHostIoClear(i);
        return 9, 0;
      }
      var r: Result<u64>;
      match call {
        case AcceptCall(a, publish, _) => r := storage.AcceptanceCommit(a, publish);
        case CatalogCall(q, staging, publish, _) => r := storage.CatalogCommit(sha, q, staging, publish);
        case AppCall(q, staging, publish, _) => r := storage.AppCommit(sha, q, staging, publish);
      }
      log := log + [Attempted(i, QueryDigest(call))];
      if r.Done? && call.noted.None? && !call.AcceptCall? && s.live.Some? {
        sessions := sessions[i := Some(s.(live := Some(s.live.value.(commit := Some(RecordOf(call, r.value))))))];
      }
      ConservedElsewhere(before, State(), i, sessions[i].value.live);
      PendingHostIoClear(i);
      return StatusOf(r, call.noted), if r.Done? then r.value else 0;
    }

    /** The replay branch: the recorded commit repeated argument by argument, against current storage. */
    method ReplayedCommit(sha: Sha, call: CommitCall, c: CommitRecord) returns (same: bool)
      requires !call.AcceptCall?
      ensures same == Replays(sha, storage.objects, call, c)
    {
      hide ComponentSequence;
      var a, payload;
      match call {
        case CatalogCall(q, _, _, _) => a, payload := q.accept, q.catalog;
        case AppCall(q, _, _, _) => a, payload := q.accept, q.wasm;
      }
      if RecordOf(call, c.generation) != c || sha(payload) != c.payload {
        return false;
      }
      var r := storage.FindComponentSequence(a.id);
      return r.Done? && r.value.1 == a.sequence;
    }

    /** teep_host_commit_acceptance, teep_host_commit_catalog and teep_host_commit_app. */
    method HostCommit(sha: Sha, i: nat, verified: bool, call: CommitCall) returns (status: nat, generation: u64)
      requires IsOpen(State(), i) && Valid()
      modifies this, storage
      ensures Valid()
      ensures Called(State(), status, generation) == CommitHostcall(sha, old(State()), i, verified, call)
    {
      hide ClearPending, Attempt, Replays, A.IsAppId, Quota.Good, Conserved;
      CommitGood(sha, State(), i, verified, call);
      GoodIsConserved(State());
      var live := sessions[i].value.live;
      if call.AcceptCall? {
        if call.accept.id == [] {
          PendingHostIoClear(i);
          return 1, 0;
        }
      } else {
        if call.CatalogCall? {
          var q := call.catalog;
          if q.accept.id != C.DEFAULT_ID || q.catalog == [] || |q.catalog| > 65536 {
            PendingHostIoClear(i);
            return 1, 0;
          }
          if !verified {
            PendingHostIoClear(i);
            return 8, 0;
          }
        } else {
          var valid := A.ComponentIdIsValid(call.app.accept.id);
          if !valid || call.app.wasm == [] || |call.app.wasm| > A.MAX_APP {
            return 1, 0;
          }
          if !verified {
            return 8, 0;
          }
        }
        if live.Some? && live.value.commit.Some? {
          var same := ReplayedCommit(sha, call, live.value.commit.value);
          if same {
            return 0, live.value.commit.value.generation;
          }
          return 9, 0;
        }
      }
      status, generation := GatedCommit(sha, i, call);
    }

    /** One run of the agent: each round carries out one host call, until it returns or its budget is spent. */
    method RunAgent(w: World, i: nat, rq: Request) returns (e: Ended)
      requires IsOpen(State(), i) && Valid()
      modifies this, storage
      ensures Valid()
      ensures (State(), e) == Exec(w, old(State()), i, rq, START, w.budget)
    {
      hide CommitHostcall, AnswerIo, Quota.Good;
      var ctx, budget := START, w.budget;
      while budget > 0
        invariant IsOpen(State(), i) && Valid()
        invariant Exec(w, State(), i, rq, ctx, budget) == Exec(w, old(State()), i, rq, START, w.budget)
      {
        var action := w.agent(rq)(ctx.trace);
        match action {
          case Finish(ok, output) =>
            return Ended(ok, output, ctx.suspended);
          case Local(query) =>
            var a := w.local(storage.objects, CommitOf(sessions[i].value), rq, ctx.trace, query);
            ctx := ctx.(trace := ctx.trace + [LocalAnswer(a)]);
          case Io(call) =>
            var (reply, index) := AnswerIo(HistoryOf(sessions[i].value), ctx.index, call);
            ctx := Context(index, if reply.MustSuspend? then Some(call) else ctx.suspended, ctx.trace + [IoAnswer(reply)]);
          case Publish(call) =>
            var status, generation := HostCommit(w.sha, i, rq.verified, call);
            ctx := ctx.(trace := ctx.trace + [CommitAnswer(status, generation)]);
        }
        budget := budget - 1;
      }
      return Ended(false, [], ctx.suspended);
    }

    /** execute_teep_agent_resolve. */
    method ResolveAgent(w: World, i: nat, rq: Request, luck: Luck) returns (o: Outcome)
      requires IsOpen(State(), i) && Valid()
      modifies this, storage
      ensures Valid()
      ensures (State(), o) == Resolve(w, old(State()), i, rq, luck)
    {
      hide Exec, Suspend, Quota.Good;
      if !luck.admitted {
        return Failed;
      }
      var e := RunAgent(w, i, rq);
      if e.ok {
        return if luck.fits then Output(e.output) else Failed;
      }
      if e.suspended.None? {
        return Failed;
      }
      var ok := BuildNeedHostIo(w.sha, i, IoOf(rq, e.suspended.value), luck.memory, luck.fits);
      return if ok then NeedHostIo(e.suspended.value) else Failed;
    }

    /** An execute command through the agent. */
    method ExecuteRequest(w: World, i: nat, rq: Request, luck: Luck) returns (o: Outcome)
      requires IsOpen(State(), i) && Valid()
      modifies this, storage
      ensures Valid()
      ensures (State(), o) == Execute(w, old(State()), i, rq, luck)
    {
      hide Resolve, Abort, AsksHostIo, Quota.Good;
      ExecuteGood(w, State(), i, rq, luck);
      if !luck.workspace {
        return Failed;
      }
      o := ResolveAgent(w, i, rq, luck);
      if o.Failed? {
        LiveAbort(i);
        return;
      }
      if AsksHostIo(o) {
        if |rq.requestId| == 0 || |rq.requestId| >= 64 || |rq.command| == 0 || |rq.command| >= 64 || !luck.copied
           || !luck.outFits {
          LiveAbort(i);
          return Failed;
        }
        sessions := sessions[i := Some(sessions[i].value.(live := Some(Live(rq, [], None))))];
      }
    }

    /** The resume command: match, record the answer, run again over the longer history. */
    method ResumeRequest(w: World, i: nat, requestId: bytes, result: bytes, luck: Luck) returns (o: Outcome)
      requires IsOpen(State(), i) && Valid()
      modifies this, storage
      ensures Valid()
      ensures (State(), o) == Resume(w, old(State()), i, requestId, result, luck)
    {
      hide Resolve, Abort, AsksHostIo, ClearPending, ParsePayload, ResultOk, Quota.Good, Conserved;
      ResumeGood(w, State(), i, requestId, result, luck);
      GoodIsConserved(State());
      var s := sessions[i].value;
      if s.pending.None? || requestId != s.pending.value.requestId
         || (s.live.Some? && requestId != s.live.value.request.requestId) {
        return Failed;
      }
      var accepted := HostIoResultOk(result, s.pending.value);
      if !accepted {
        return Failed;
      }
      if s.live.None? {
        PendingHostIoClear(i);
        return if luck.outFits then Output([]) else Failed;
      }
      if !luck.workspace {
        return Failed;
      }
      var p := ParseHostIoResultPayload(result);
      if p.Err? || |s.live.value.history| >= HISTORY_MAX || !luck.copied {
        LiveAbort(i);
        return Failed;
      }
      var live := s.live.value;
      PutLiveGood(State(), i, Some(live.(history := live.history + [p.value])));
      sessions := sessions[i := Some(s.(live := Some(live.(history := live.history + [p.value]))))];
      o := ResolveAgent(w, i, live.request, luck);
      if o.Failed? {
        LiveAbort(i);
        return;
      }
      if AsksHostIo(o) && luck.outFits {
        return;
      }
      o := if AsksHostIo(o) then Failed else o;
      LiveAbort(i);
    }
  }
}

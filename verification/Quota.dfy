/** What every command keeps: the transcript quota, and the single use of each transcript. */
module Quota {
  import opened Bytes
  import opened Tee
  import opened HostIoResult
  import opened Continuation
  import A = AppRecord

  // ----- the shared counters -----

  function One(s: Option<Session>): nat { if HoldsHttp(s) then 1 else 0 }

  function BodyLength(s: Option<Session>): nat { if HoldsHttp(s) then |s.value.pending.value.body| else 0 }

  /** The number of sessions holding an HTTP transcript. */
  function Holders(ss: seq<Option<Session>>): nat {
    if ss == [] then 0 else One(ss[0]) + Holders(ss[1..])
  }

  /** The sum of their body lengths. */
  function BodyBytes(ss: seq<Option<Session>>): nat {
    if ss == [] then 0 else BodyLength(ss[0]) + BodyBytes(ss[1..])
  }

  predicate Conserved(ta: Ta) {
    ta.count == Holders(ta.sessions) && ta.total == BodyBytes(ta.sessions) && ta.count <= COUNT_MAX
    && forall i :: 0 <= i < |ta.sessions| ==> BodyLength(ta.sessions[i]) <= TRANSCRIPT_MAX
  }

  lemma {:induction false} Updated(ss: seq<Option<Session>>, i: nat, s: Option<Session>)
    requires i < |ss|
    ensures Holders(ss[i := s]) == Holders(ss) - One(ss[i]) + One(s)
    ensures BodyBytes(ss[i := s]) == BodyBytes(ss) - BodyLength(ss[i]) + BodyLength(s)
  {
    hide HoldsHttp;
    if i > 0 {
      Updated(ss[1..], i - 1, s);
      assert ss[i := s][1..] == ss[1..][i - 1 := s];
    } else {
      assert ss[i := s][1..] == ss[1..];
    }
  }

  lemma {:induction false} Appended(ss: seq<Option<Session>>, s: Option<Session>)
    requires !HoldsHttp(s)
    ensures Holders(ss + [s]) == Holders(ss) && BodyBytes(ss + [s]) == BodyBytes(ss)
  {
    if ss == [] {
      assert ss + [s] == [s];
    } else {
      Appended(ss[1..], s);
      assert (ss + [s])[1..] == ss[1..] + [s];
    }
  }

  lemma {:induction false} Bounded(ss: seq<Option<Session>>)
    requires forall i :: 0 <= i < |ss| ==> BodyLength(ss[i]) <= TRANSCRIPT_MAX
    ensures BodyBytes(ss) <= TRANSCRIPT_MAX * Holders(ss)
  {
    if ss != [] {
      Bounded(ss[1..]);
    }
  }

  // ----- the log -----

  /** The latest event of a session. */
  function LastOf(log: seq<Event>, i: nat): Option<Event> {
    if log == [] then None
    else
      var e := log[|log| - 1];
      if e.session == i then Some(e) else LastOf(log[..|log| - 1], i)
  }

  /** Every attempt is the first use of the transcript its session saved last, under that transcript's hash. */
  predicate Paired(log: seq<Event>) {
    log == [] ||
    (var e, before := log[|log| - 1], log[..|log| - 1];
     Paired(before) && (e.Attempted? ==> LastOf(before, e.session) == Some(Saved(e.session, e.sha))))
  }

  predicate SingleUse(ta: Ta) {
    Paired(ta.log)
    && forall i :: 0 <= i < |ta.sessions| && HoldsHttp(ta.sessions[i]) ==>
                     LastOf(ta.log, i) == Some(Saved(i, ta.sessions[i].value.pending.value.bodySha))
  }

  predicate Good(ta: Ta) { Conserved(ta) && SingleUse(ta) }

  lemma Logged(log: seq<Event>, e: Event, i: nat)
    ensures LastOf(log + [e], i) == if e.session == i then Some(e) else LastOf(log, i)
    ensures Paired(log + [e]) == (Paired(log) && (e.Attempted? ==> LastOf(log, e.session) == Some(Saved(e.session, e.sha))))
  {
    assert (log + [e])[..|log|] == log;
  }

  // ----- the primitives -----

  /** Clearing is exact: neither counter can underflow, and both keep their meaning. */
  lemma ClearKeeps(ta: Ta, i: nat)
    requires IsOpen(ta, i) && Conserved(ta)
    ensures var c := ClearPending(ta, i);
            Conserved(c) && ta.count >= One(ta.sessions[i]) && ta.total >= BodyLength(ta.sessions[i])
            && c.count == ta.count - One(ta.sessions[i]) && c.total == ta.total - BodyLength(ta.sessions[i])
  {
    hide Holders, BodyBytes;
    Updated(ta.sessions, i, Some(At(ta, i).(pending := None)));
    Updated(ta.sessions, i, None);
  }

  lemma ClearGood(ta: Ta, i: nat)
    requires IsOpen(ta, i) && Good(ta)
    ensures Good(ClearPending(ta, i))
  {
    hide Holders, BodyBytes, LastOf, Paired;
    ClearKeeps(ta, i);
  }

  lemma GoodIsConserved(ta: Ta)
    requires Good(ta)
    ensures Conserved(ta)
  {
  }

  /** The counters do not depend on storage, the log or a session's live request. */
  lemma ConservedElsewhere(ta: Ta, after: Ta, i: nat, live: Option<Live>)
    requires IsOpen(ta, i) && Conserved(ta)
    requires after.sessions == ta.sessions[i := Some(At(ta, i).(live := live))] && after.count == ta.count && after.total == ta.total
    ensures Conserved(after)
  {
    hide Holders, BodyBytes;
    Updated(ta.sessions, i, Some(At(ta, i).(live := live)));
  }

  lemma PutLiveGood(ta: Ta, i: nat, live: Option<Live>)
    requires IsOpen(ta, i) && Good(ta)
    ensures Good(Put(ta, i, At(ta, i).(live := live)))
  {
    hide Holders, BodyBytes, LastOf, Paired;
    Updated(ta.sessions, i, Some(At(ta, i).(live := live)));
  }

  /** With the count and size limits kept, the aggregate limit never decides. */
  lemma AggregateNeverDecides(ta: Ta, q: IoRequest)
    requires Conserved(ta)
    ensures OverQuota(ta, q) <==> q.kind == HttpPost && (|q.body| > TRANSCRIPT_MAX || ta.count >= COUNT_MAX)
  {
    hide Holders, BodyBytes;
    Bounded(ta.sessions);
  }

  lemma SaveGood(sha: bytes -> digest, ta: Ta, i: nat, q: IoRequest, memory: bool)
    requires IsOpen(ta, i) && Good(ta)
    ensures Good(SavePending(sha, ta, i, q, memory).0)
  {
    hide Holders, BodyBytes, LastOf, Paired, ClearPending;
    ClearGood(ta, i);
    var c := ClearPending(ta, i);
    if SavePending(sha, ta, i, q, memory).1 {
      var p := PendingOf(sha, q);
      ClearedHoldsNothing(ta, i);
      Updated(c.sessions, i, Some(At(c, i).(pending := Some(p))));
      AggregateNeverDecides(c, q);
      forall j: nat
        ensures LastOf(c.log + [Saved(i, p.bodySha)], j) == if i == j then Some(Saved(i, p.bodySha)) else LastOf(c.log, j)
      {
        Logged(c.log, Saved(i, p.bodySha), j);
      }
      Logged(c.log, Saved(i, p.bodySha), i);
    }
  }

  lemma ClearedHoldsNothing(ta: Ta, i: nat)
    requires IsOpen(ta, i)
    ensures !HoldsHttp(ClearPending(ta, i).sessions[i])
  {
  }

  lemma SuspendGood(sha: bytes -> digest, ta: Ta, i: nat, q: IoRequest, memory: bool, fits: bool)
    requires IsOpen(ta, i) && Good(ta)
    ensures Good(Suspend(sha, ta, i, q, memory, fits).0)
  {
    hide Good, SavePending, ClearPending;
    SaveGood(sha, ta, i, q, memory);
    ClearGood(SavePending(sha, ta, i, q, memory).0, i);
  }

  lemma AbortGood(ta: Ta, i: nat)
    requires IsOpen(ta, i) && Good(ta)
    ensures Good(Abort(ta, i))
  {
    hide Good, ClearPending, Put;
    ClearGood(ta, i);
    PutLiveGood(ClearPending(ta, i), i, None);
  }

  // ----- commits -----

  lemma ClearIgnoresStorage(ta: Ta, i: nat, store: Store, log: seq<Event>)
    requires IsOpen(ta, i)
    ensures ClearPending(ta.(store := store, log := log), i) == ClearPending(ta, i).(store := store, log := log)
  {
  }

  /** An attempt uses the transcript it was gated on, and leaves none behind. */
  lemma AttemptGood(sha: bytes -> digest, ta: Ta, i: nat, call: CommitCall)
    requires IsOpen(ta, i) && Good(ta)
    ensures Good(Attempt(sha, ta, i, call).ta)
  {
    hide Holders, BodyBytes, LastOf, Paired, ClearPending, Storing;
    ClearGood(ta, i);
    var s := At(ta, i);
    if HoldsHttp(ta.sessions[i]) && s.pending.value.bodySha == QueryDigest(call) {
      var e := Attempted(i, QueryDigest(call));
      var reply := Storing(sha, ta.store, call);
      var live :=
        if reply.result.Done? && call.noted.None? && !call.AcceptCall? && s.live.Some?
        then Some(s.live.value.(commit := Some(RecordOf(call, reply.result.value)))) else s.live;
      var recorded := Put(ta, i, s.(live := live));
      PutLiveGood(ta, i, live);
      ClearGood(recorded, i);
      ClearIgnoresStorage(recorded, i, reply.store, ta.log + [e]);
      ClearedHoldsNothing(recorded, i);
      assert ta.sessions[i := Some(s)] == ta.sessions;
      forall j: nat
        ensures LastOf(ta.log + [e], j) == if i == j then Some(e) else LastOf(ta.log, j)
      {
        Logged(ta.log, e, j);
      }
      Logged(ta.log, e, i);
      assert ClearPending(recorded, i).log == ta.log by { ClearKeepsLog(recorded, i); }
      assert Attempt(sha, ta, i, call).ta == ClearPending(recorded, i).(store := reply.store, log := ta.log + [e]);
    }
  }

  lemma ClearKeepsLog(ta: Ta, i: nat)
    requires IsOpen(ta, i)
    ensures ClearPending(ta, i).log == ta.log && ClearPending(ta, i).store == ta.store
  {
  }

  lemma CommitGood(sha: bytes -> digest, ta: Ta, i: nat, verified: bool, call: CommitCall)
    requires IsOpen(ta, i) && Good(ta)
    ensures Good(CommitHostcall(sha, ta, i, verified, call).ta)
  {
    hide Good, ClearPending, Attempt, Replays, A.IsAppId;
    ClearGood(ta, i);
    AttemptGood(sha, ta, i, call);
  }

  // ----- commands -----

  lemma {:induction false} ExecGood(w: World, ta: Ta, i: nat, rq: Request, ctx: Context, budget: nat)
    requires IsOpen(ta, i) && Good(ta)
    ensures Good(Exec(w, ta, i, rq, ctx, budget).0)
    decreases budget
  {
    hide Good, CommitHostcall, AnswerIo;
    if budget > 0 {
      match w.agent(rq)(ctx.trace)
      case Finish(_, _) =>
      case Local(query) =>
        var a := w.local(ta.store, CommitOf(At(ta, i)), rq, ctx.trace, query);
        ExecGood(w, ta, i, rq, ctx.(trace := ctx.trace + [LocalAnswer(a)]), budget - 1);
      case Io(call) =>
        var (reply, index) := AnswerIo(HistoryOf(At(ta, i)), ctx.index, call);
        var suspended := if reply.MustSuspend? then Some(call) else ctx.suspended;
        ExecGood(w, ta, i, rq, Context(index, suspended, ctx.trace + [IoAnswer(reply)]), budget - 1);
      case Publish(call) =>
        CommitGood(w.sha, ta, i, rq.verified, call);
        var c := CommitHostcall(w.sha, ta, i, rq.verified, call);
        ExecGood(w, c.ta, i, rq, ctx.(trace := ctx.trace + [CommitAnswer(c.status, c.generation)]), budget - 1);
    }
  }

  lemma ResolveGood(w: World, ta: Ta, i: nat, rq: Request, luck: Luck)
    requires IsOpen(ta, i) && Good(ta)
    ensures Good(Resolve(w, ta, i, rq, luck).0)
  {
    hide Good, Exec, Suspend;
    ExecGood(w, ta, i, rq, START, w.budget);
    var (ran, e) := Exec(w, ta, i, rq, START, w.budget);
    if e.suspended.Some? {
      SuspendGood(w.sha, ran, i, IoOf(rq, e.suspended.value), luck.memory, luck.fits);
    }
  }

  lemma ExecuteGood(w: World, ta: Ta, i: nat, rq: Request, luck: Luck)
    requires IsOpen(ta, i) && Good(ta)
    ensures Good(Execute(w, ta, i, rq, luck).0)
  {
    hide Good, Resolve, Abort, AsksHostIo;
    ResolveGood(w, ta, i, rq, luck);
    var done := Resolve(w, ta, i, rq, luck).0;
    AbortGood(done, i);
    PutLiveGood(done, i, Some(Live(rq, [], None)));
  }

  lemma ResumeGood(w: World, ta: Ta, i: nat, requestId: bytes, result: bytes, luck: Luck)
    requires IsOpen(ta, i) && Good(ta)
    ensures Good(Resume(w, ta, i, requestId, result, luck).0)
  {
    hide Good, Resolve, Abort, AsksHostIo, ClearPending, Awaits, ParsePayload;
    ClearGood(ta, i);
    AbortGood(ta, i);
    var s, p := At(ta, i), ParsePayload(result);
    if s.live.Some? && p.Done? {
      var live := s.live.value;
      var longer := Put(ta, i, s.(live := Some(live.(history := live.history + [p.value]))));
      PutLiveGood(ta, i, Some(live.(history := live.history + [p.value])));
      ResolveGood(w, longer, i, live.request, luck);
      AbortGood(Resolve(w, longer, i, live.request, luck).0, i);
    }
  }

  lemma CloseGood(ta: Ta, i: nat)
    requires IsOpen(ta, i) && Good(ta)
    ensures var c := Abort(ta, i); Good(c.(sessions := c.sessions[i := None]))
  {
    hide Holders, BodyBytes, LastOf, Paired, ClearPending;
    AbortGood(ta, i);
    var c := Abort(ta, i);
    ClearedHoldsNothing(ta, i);
    Updated(c.sessions, i, None);
  }

  lemma StepGood(w: World, ta: Ta, cmd: Command)
    requires Good(ta)
    ensures Good(Step(w, ta, cmd))
  {
    match cmd
    case Open =>
      hide Holders, BodyBytes, LastOf, Paired;
      Appended(ta.sessions, Some(Session(None, None)));
    case Close(i) => if IsOpen(ta, i) { CloseGood(ta, i); }
    case Probe(i, q, luck) => if IsOpen(ta, i) { SuspendGood(w.sha, ta, i, q, luck.memory, luck.fits); }
    case Start(i, rq, luck) => if IsOpen(ta, i) { ExecuteGood(w, ta, i, rq, luck); }
    case Continue(i, id, result, luck) => if IsOpen(ta, i) { ResumeGood(w, ta, i, id, result, luck); }
  }

  /** Every state that any interleaving of commands on any sessions can reach is good. */
  lemma {:induction false} EveryRunGood(w: World, store: Store, cmds: seq<Command>)
    ensures Good(RunAll(w, Initial(store), cmds))
    decreases |cmds|
  {
    if cmds != [] {
      hide Good, Step;
      EveryRunGood(w, store, cmds[..|cmds| - 1]);
      StepGood(w, RunAll(w, Initial(store), cmds[..|cmds| - 1]), cmds[|cmds| - 1]);
    }
  }
}

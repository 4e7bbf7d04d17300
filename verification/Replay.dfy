/** Resuming by replay: k reruns over the recorded answers amount to one uninterrupted run. */
module Replay {
  import opened Bytes
  import opened Tee
  import opened HostIoResult
  import opened AcceptanceStore
  import opened Continuation
  import opened Quota
  import Protocol
  import A = AppRecord

  // ----- the uninterrupted run -----

  /** How far a run gets: it waits for a host call it has no answer to, or it ends. */
  datatype Reached = Waits(call: IoCall) | Ends(ok: bool, output: bytes)

  function ReachedBy(e: Ended): Reached {
    if e.ok then Ends(true, e.output) else if e.suspended.Some? then Waits(e.suspended.value) else Ends(false, [])
  }

  /** One run of the agent that is handed each answer at the call that asks for it, and never restarts; a call beyond the
      host call limits is refused. */
  function Direct(w: World, store: Store, rq: Request, answers: seq<Recorded>, trace: seq<Answer>, budget: nat): Reached
    decreases budget
  {
    if budget == 0 then Ends(false, [])
    else
      match w.agent(rq)(trace)
      case Finish(ok, output) => Ends(ok, if ok then output else [])
      case Local(query) =>
        Direct(w, store, rq, answers, trace + [LocalAnswer(w.local(store, None, rq, trace, query))], budget - 1)
      case Io(call) =>
        if Oversized(call) then Direct(w, store, rq, answers, trace + [IoAnswer(TooLong)], budget - 1)
        else if answers == [] then Waits(call)
        else Direct(w, store, rq, answers[1..], trace + [IoAnswer(Payload(answers[0].payload))], budget - 1)
      case Publish(_) => Ends(false, [])
  }

  /**
   * What is asked of the run, at the actions it really takes: it makes no commit call, no refused call comes up while an
   * answer of its kind is next, every answer it is handed fits the buffer offered for it, and told to suspend at the call
   * it waits at, it ends.
   */
  predicate Tame(w: World, store: Store, rq: Request, answers: seq<Recorded>, trace: seq<Answer>, budget: nat)
    decreases budget
  {
    budget == 0 ||
    match w.agent(rq)(trace)
    case Finish(_, _) => true
    case Local(query) =>
      Tame(w, store, rq, answers, trace + [LocalAnswer(w.local(store, None, rq, trace, query))], budget - 1)
    case Io(call) =>
      if Oversized(call) then
        (answers == [] || answers[0].kind != call.kind)
        && Tame(w, store, rq, answers, trace + [IoAnswer(TooLong)], budget - 1)
      else if answers == [] then budget == 1 || GivesUp(w.agent(rq)(trace + [IoAnswer(MustSuspend)]))
      else |answers[0].payload| <= call.capacity
           && Tame(w, store, rq, answers[1..], trace + [IoAnswer(Payload(answers[0].payload))], budget - 1)
    case Publish(_) => false
  }

  predicate GivesUp(a: Action) { a.Finish? && !a.ok }

  /** Each answer was given to a call of its own kind: the one the run was waiting at with the answers before it. */
  predicate Follows(w: World, store: Store, rq: Request, answers: seq<Recorded>, trace: seq<Answer>, budget: nat) {
    forall j :: 0 <= j < |answers| ==>
                  var r := Direct(w, store, rq, answers[..j], trace, budget);
                  r.Waits? && r.call.kind == answers[j].kind
  }

  lemma FollowsNext(w: World, store: Store, rq: Request, answers: seq<Recorded>, trace: seq<Answer>, next: Answer, drop: nat,
                    budget: nat)
    requires budget > 0 && drop <= |answers| && Follows(w, store, rq, answers, trace, budget)
    requires forall j :: drop <= j <= |answers| ==>
                           Direct(w, store, rq, answers[..j], trace, budget)
                           == Direct(w, store, rq, answers[..j][drop..], trace + [next], budget - 1)
    ensures Follows(w, store, rq, answers[drop..], trace + [next], budget - 1)
  {
    hide Direct;
    forall j | 0 <= j < |answers| - drop
      ensures var r := Direct(w, store, rq, answers[drop..][..j], trace + [next], budget - 1);
              r.Waits? && r.call.kind == answers[drop..][j].kind
    {
      assert answers[..j + drop][drop..] == answers[drop..][..j];
      var r := Direct(w, store, rq, answers[..j + drop], trace, budget);
      assert r.Waits? && r.call.kind == answers[j + drop].kind;
    }
  }

  /** The session runs the request over this history, with nothing committed in it. */
  predicate Replaying(s: Session, h: seq<Recorded>) { HistoryOf(s) == h && CommitOf(s).None? }

  lemma FollowsLocal(w: World, store: Store, rq: Request, answers: seq<Recorded>, trace: seq<Answer>, budget: nat)
    requires budget > 0 && w.agent(rq)(trace).Local? && Follows(w, store, rq, answers, trace, budget)
    ensures var next := LocalAnswer(w.local(store, None, rq, trace, w.agent(rq)(trace).query));
            Follows(w, store, rq, answers, trace + [next], budget - 1)
            && Direct(w, store, rq, answers, trace, budget) == Direct(w, store, rq, answers, trace + [next], budget - 1)
  {
    var next := LocalAnswer(w.local(store, None, rq, trace, w.agent(rq)(trace).query));
    forall j | 0 <= j <= |answers|
      ensures answers[..j][0..] == answers[..j]
    {
    }
    FollowsNext(w, store, rq, answers, trace, next, 0, budget);
    assert answers[0..] == answers;
  }

  lemma FollowsRefused(w: World, store: Store, rq: Request, answers: seq<Recorded>, trace: seq<Answer>, budget: nat)
    requires budget > 0 && w.agent(rq)(trace).Io? && Oversized(w.agent(rq)(trace).io)
    requires Follows(w, store, rq, answers, trace, budget)
    ensures Follows(w, store, rq, answers, trace + [IoAnswer(TooLong)], budget - 1)
            && Direct(w, store, rq, answers, trace, budget)
               == Direct(w, store, rq, answers, trace + [IoAnswer(TooLong)], budget - 1)
  {
    hide Oversized;
    forall j | 0 <= j <= |answers|
      ensures answers[..j][0..] == answers[..j]
    {
    }
    FollowsNext(w, store, rq, answers, trace, IoAnswer(TooLong), 0, budget);
    assert answers[0..] == answers;
  }

  lemma FollowsIo(w: World, store: Store, rq: Request, answers: seq<Recorded>, trace: seq<Answer>, budget: nat)
    requires budget > 0 && w.agent(rq)(trace).Io? && !Oversized(w.agent(rq)(trace).io) && answers != [] && Follows(w, store, rq, answers, trace, budget)
    ensures w.agent(rq)(trace).io.kind == answers[0].kind
    ensures var next := IoAnswer(Payload(answers[0].payload));
            Follows(w, store, rq, answers[1..], trace + [next], budget - 1)
            && Direct(w, store, rq, answers, trace, budget) == Direct(w, store, rq, answers[1..], trace + [next], budget - 1)
  {
    hide Oversized;
    assert answers[..0] == [];
    assert Direct(w, store, rq, answers[..0], trace, budget) == Waits(w.agent(rq)(trace).io);
    var next := IoAnswer(Payload(answers[0].payload));
    FollowsNext(w, store, rq, answers, trace, next, 1, budget);
  }

  /** A local call, and a call answered from the history, only extend what the agent has seen. */
  lemma ExecStep(w: World, ta: Ta, i: nat, rq: Request, h: seq<Recorded>, ctx: Context, budget: nat)
    requires IsOpen(ta, i) && Replaying(At(ta, i), h) && ctx.index <= |h| && ctx.suspended.None? && budget > 0
    ensures var a := w.agent(rq)(ctx.trace);
            a.Local? ==>
              var next := LocalAnswer(w.local(ta.store, None, rq, ctx.trace, a.query));
              Exec(w, ta, i, rq, ctx, budget) == Exec(w, ta, i, rq, ctx.(trace := ctx.trace + [next]), budget - 1)
    ensures var a := w.agent(rq)(ctx.trace);
            a.Io? && ctx.index < |h| && a.io.kind == h[ctx.index].kind && |h[ctx.index].payload| <= a.io.capacity ==>
              var next := IoAnswer(Payload(h[ctx.index].payload));
              Exec(w, ta, i, rq, ctx, budget)
              == Exec(w, ta, i, rq, Context(ctx.index + 1, None, ctx.trace + [next]), budget - 1)
    ensures var a := w.agent(rq)(ctx.trace);
            a.Io? && Oversized(a.io) && (ctx.index == |h| || h[ctx.index].kind != a.io.kind) ==>
              Exec(w, ta, i, rq, ctx, budget)
              == Exec(w, ta, i, rq, ctx.(trace := ctx.trace + [IoAnswer(TooLong)]), budget - 1)
  {
    hide CommitHostcall, Oversized;
  }

  /** A rerun over the recorded history gets exactly as far as the uninterrupted run, and changes no state. */
  lemma {:induction false} RerunIsDirect(w: World, ta: Ta, i: nat, rq: Request, h: seq<Recorded>, ctx: Context, budget: nat)
    requires IsOpen(ta, i) && Replaying(At(ta, i), h) && ctx.index <= |h| && ctx.suspended.None?
    requires Follows(w, ta.store, rq, h[ctx.index..], ctx.trace, budget)
    requires Tame(w, ta.store, rq, h[ctx.index..], ctx.trace, budget)
    ensures var r := Exec(w, ta, i, rq, ctx, budget);
            r.0 == ta && ReachedBy(r.1) == Direct(w, ta.store, rq, h[ctx.index..], ctx.trace, budget)
    decreases budget
  {
    hide Exec, Follows, Direct, Oversized;
    if budget == 0 || w.agent(rq)(ctx.trace).Finish? {
      RerunStops(w, ta, i, rq, h[ctx.index..], ctx, budget);
    } else {
      ExecStep(w, ta, i, rq, h, ctx, budget);
      var left := h[ctx.index..];
      match w.agent(rq)(ctx.trace)
      case Local(query) =>
        FollowsLocal(w, ta.store, rq, left, ctx.trace, budget);
        var next := LocalAnswer(w.local(ta.store, None, rq, ctx.trace, query));
        RerunIsDirect(w, ta, i, rq, h, ctx.(trace := ctx.trace + [next]), budget - 1);
      case Io(call) =>
        if Oversized(call) {
          FollowsRefused(w, ta.store, rq, left, ctx.trace, budget);
          RerunIsDirect(w, ta, i, rq, h, ctx.(trace := ctx.trace + [IoAnswer(TooLong)]), budget - 1);
        } else if left == [] {
          SuspendsAtOnce(w, ta, i, rq, ctx, call, budget);
          DirectWaits(w, ta.store, rq, ctx.trace, budget);
        } else {
          FollowsIo(w, ta.store, rq, left, ctx.trace, budget);
          assert left[1..] == h[ctx.index + 1..] && left[0] == h[ctx.index];
          var next := Context(ctx.index + 1, None, ctx.trace + [IoAnswer(Payload(left[0].payload))]);
          RerunIsDirect(w, ta, i, rq, h, next, budget - 1);
        }
    }
  }

  lemma RerunStops(w: World, ta: Ta, i: nat, rq: Request, left: seq<Recorded>, ctx: Context, budget: nat)
    requires IsOpen(ta, i) && ctx.suspended.None? && (budget == 0 || w.agent(rq)(ctx.trace).Finish?)
    ensures var r := Exec(w, ta, i, rq, ctx, budget);
            r.0 == ta && ReachedBy(r.1) == Direct(w, ta.store, rq, left, ctx.trace, budget)
  {
    hide CommitHostcall;
  }

  lemma DirectWaits(w: World, store: Store, rq: Request, trace: seq<Answer>, budget: nat)
    requires budget > 0 && w.agent(rq)(trace).Io? && !Oversized(w.agent(rq)(trace).io)
    ensures Direct(w, store, rq, [], trace, budget) == Waits(w.agent(rq)(trace).io)
  {
  }

  lemma SuspendsAtOnce(w: World, ta: Ta, i: nat, rq: Request, ctx: Context, call: IoCall, budget: nat)
    requires IsOpen(ta, i) && ctx.index == |HistoryOf(At(ta, i))| && budget > 0
    requires w.agent(rq)(ctx.trace) == Io(call) && !Oversized(call)
    requires budget == 1 || GivesUp(w.agent(rq)(ctx.trace + [IoAnswer(MustSuspend)]))
    ensures var r := Exec(w, ta, i, rq, ctx, budget); r.0 == ta && ReachedBy(r.1) == Waits(call)
  {
    hide CommitHostcall, Oversized;
    var told := Context(ctx.index, Some(call), ctx.trace + [IoAnswer(MustSuspend)]);
    assert Exec(w, ta, i, rq, ctx, budget) == Exec(w, ta, i, rq, told, budget - 1);
  }

  // ----- the session that suspends and resumes -----

  const LUCKY := Luck(true, true, true, true, true, true)

  function OutcomeOf(r: Reached): Outcome {
    match r case Waits(call) => NeedHostIo(call) case Ends(ok, output) => if ok then Output(output) else Failed
  }

  /** The other sessions leave room for this session's transcript. */
  predicate Room(ta: Ta, i: nat)
    requires IsOpen(ta, i)
  {
    Conserved(ta) && ta.count - One(ta.sessions[i]) < COUNT_MAX
  }

  /** The session waits at `call` with the answers `h` recorded. */
  predicate Parked(w: World, ta: Ta, i: nat, rq: Request, h: seq<Recorded>, call: IoCall, store: Store) {
    IsOpen(ta, i) && Room(ta, i) && ta.store == store && At(ta, i).live == Some(Live(rq, h, None))
    && At(ta, i).pending == Some(PendingOf(w.sha, IoOf(rq, call)))
  }

  lemma {:induction false} WaitsWithinLimits(w: World, store: Store, rq: Request, answers: seq<Recorded>, trace: seq<Answer>,
                                             budget: nat)
    requires Direct(w, store, rq, answers, trace, budget).Waits?
    ensures !Oversized(Direct(w, store, rq, answers, trace, budget).call)
    decreases budget
  {
    hide Oversized;
    match w.agent(rq)(trace)
    case Local(query) =>
      WaitsWithinLimits(w, store, rq, answers, trace + [LocalAnswer(w.local(store, None, rq, trace, query))], budget - 1);
    case Io(call) =>
      if Oversized(call) {
        WaitsWithinLimits(w, store, rq, answers, trace + [IoAnswer(TooLong)], budget - 1);
      } else if answers != [] {
        WaitsWithinLimits(w, store, rq, answers[1..], trace + [IoAnswer(Payload(answers[0].payload))], budget - 1);
      }
    case _ =>
  }

  /** With room in the quota a call within the limits is always saved. */
  lemma SuspendSucceeds(w: World, ta: Ta, i: nat, rq: Request, call: IoCall)
    requires IsOpen(ta, i) && Room(ta, i) && RequestFits(rq) && !Oversized(call)
    ensures var (saved, ok) := Suspend(w.sha, ta, i, IoOf(rq, call), true, true);
            ok && saved.store == ta.store && At(saved, i).live == At(ta, i).live && Room(saved, i)
            && At(saved, i).pending == Some(PendingOf(w.sha, IoOf(rq, call)))
  {
    hide Holders, BodyBytes;
    ClearKeeps(ta, i);
    var c := ClearPending(ta, i);
    AggregateNeverDecides(c, IoOf(rq, call));
    Updated(c.sessions, i, Some(At(c, i).(pending := Some(PendingOf(w.sha, IoOf(rq, call))))));
  }

  lemma ResolveIsDirect(w: World, ta: Ta, i: nat, rq: Request, h: seq<Recorded>)
    requires IsOpen(ta, i) && Replaying(At(ta, i), h) && Room(ta, i) && RequestFits(rq)
    requires Tame(w, ta.store, rq, h, [], w.budget) && Follows(w, ta.store, rq, h, [], w.budget)
    ensures var r := Resolve(w, ta, i, rq, LUCKY); var d := Direct(w, ta.store, rq, h, [], w.budget);
            r.1 == OutcomeOf(d)
            && (d.Waits? ==> r.0.store == ta.store && Room(r.0, i) && At(r.0, i).live == At(ta, i).live
                             && At(r.0, i).pending == Some(PendingOf(w.sha, IoOf(rq, d.call))))
  {
    hide Exec, Direct, Suspend, Follows, Tame, Room, PendingOf, Oversized;
    assert h[0..] == h;
    RerunIsDirect(w, ta, i, rq, h, START, w.budget);
    var d := Direct(w, ta.store, rq, h, [], w.budget);
    if d.Waits? {
      WaitsWithinLimits(w, ta.store, rq, h, [], w.budget);
      SuspendSucceeds(w, ta, i, rq, d.call);
    }
  }

  lemma StartIsDirect(w: World, ta: Ta, i: nat, rq: Request)
    requires IsOpen(ta, i) && At(ta, i).live.None? && Room(ta, i) && RequestFits(rq)
    requires Tame(w, ta.store, rq, [], [], w.budget)
    ensures var r := Execute(w, ta, i, rq, LUCKY); var d := Direct(w, ta.store, rq, [], [], w.budget);
            r.1 == OutcomeOf(d) && (d.Waits? ==> Parked(w, r.0, i, rq, [], d.call, ta.store))
  {
    hide Resolve, Direct, Tame, Holders, BodyBytes, PendingOf, Fields, Last;
    FollowsNothing(w, ta.store, rq);
    ResolveIsDirect(w, ta, i, rq, []);
    var done := Resolve(w, ta, i, rq, LUCKY).0;
    Updated(done.sessions, i, Some(At(done, i).(live := Some(Live(rq, [], None)))));
  }

  /** Recording one more answer of the awaited kind keeps the run on its track. */
  lemma FollowsMore(w: World, store: Store, rq: Request, h: seq<Recorded>, r: Recorded)
    requires Follows(w, store, rq, h, [], w.budget)
    requires var d := Direct(w, store, rq, h, [], w.budget); d.Waits? && d.call.kind == r.kind
    ensures Follows(w, store, rq, h + [r], [], w.budget)
  {
    hide Direct;
    forall j | 0 <= j < |h| + 1
      ensures var d := Direct(w, store, rq, (h + [r])[..j], [], w.budget); d.Waits? && d.call.kind == (h + [r])[j].kind
    {
      assert (h + [r])[..j] == h[..j];
      assert h[..|h|] == h;
    }
  }

  lemma ResumeIsDirect(w: World, ta: Ta, i: nat, rq: Request, h: seq<Recorded>, call: IoCall, result: bytes, store: Store)
    requires Parked(w, ta, i, rq, h, call, store) && Awaits(At(ta, i), rq.requestId, result) && ParsePayload(result).Done?
    requires RequestFits(rq) && |h| < HISTORY_MAX
    requires Direct(w, store, rq, h, [], w.budget) == Waits(call) && Follows(w, store, rq, h, [], w.budget)
    requires Tame(w, store, rq, h + [ParsePayload(result).value], [], w.budget)
    ensures var longer := h + [ParsePayload(result).value];
            var r := Resume(w, ta, i, rq.requestId, result, LUCKY); var d := Direct(w, store, rq, longer, [], w.budget);
            Follows(w, store, rq, longer, [], w.budget)
            && r.1 == OutcomeOf(d) && (d.Waits? ==> Parked(w, r.0, i, rq, longer, d.call, store))
  {
    hide Resolve, Direct, Follows, Tame, Holders, BodyBytes, PendingOf, ResultOk, ParsePayload, Fields, Last,
         Abort;
    var r := ParsePayload(result).value;
    assert r.kind == call.kind by {
      ReplayKindIsPendingKind(result, At(ta, i).pending.value);
      PendingKind(w.sha, rq, call);
    }
    FollowsMore(w, store, rq, h, r);
    var s := At(ta, i);
    var longer := Put(ta, i, s.(live := Some(s.live.value.(history := h + [r]))));
    Updated(ta.sessions, i, longer.sessions[i]);
    ResolveIsDirect(w, longer, i, rq, h + [r]);
  }

  lemma PendingKind(sha: bytes -> digest, rq: Request, call: IoCall)
    ensures PendingOf(sha, IoOf(rq, call)).kind == call.kind
  {
  }

  /** A start followed by one resume per answer. */
  function Resumed(w: World, ta: Ta, i: nat, rq: Request, results: seq<bytes>): (r: (Ta, Outcome))
    requires IsOpen(ta, i)
    ensures IsOpen(r.0, i)
  {
    if results == [] then Execute(w, ta, i, rq, LUCKY)
    else
      var n := |results| - 1;
      Resume(w, Resumed(w, ta, i, rq, results[..n]).0, i, rq.requestId, results[n], LUCKY)
  }

  /** Every answer found the session waiting for it. */
  predicate AllAwaited(w: World, ta: Ta, i: nat, rq: Request, results: seq<bytes>)
    requires IsOpen(ta, i)
  {
    results == [] ||
    (var n := |results| - 1; var (before, o) := Resumed(w, ta, i, rq, results[..n]);
     AllAwaited(w, ta, i, rq, results[..n]) && o.NeedHostIo? && Awaits(At(before, i), rq.requestId, results[n])
     && ParsePayload(results[n]).Done?)
  }

  function Recording(result: bytes): Recorded {
    var p := ParsePayload(result);
    if p.Done? then p.value else Recorded(HttpPost, [])
  }

  function Recordings(results: seq<bytes>): (h: seq<Recorded>)
    ensures |h| == |results|
  {
    if results == [] then [] else Recordings(results[..|results| - 1]) + [Recording(results[|results| - 1])]
  }

  /** Every rerun, from the first start to the last resume, is tame. */
  predicate AllTame(w: World, store: Store, rq: Request, results: seq<bytes>) {
    (results == [] || AllTame(w, store, rq, results[..|results| - 1]))
    && Tame(w, store, rq, Recordings(results), [], w.budget)
  }

  /**
   * Replay refines direct execution: starting a request and resuming it once per answer, each time from the
   * entry point over the recorded history, arrives at the same host call or output as one uninterrupted
   * run given the same answers.
   */
  lemma {:induction false} ReplayRefinesDirect(w: World, ta: Ta, i: nat, rq: Request, results: seq<bytes>)
    requires IsOpen(ta, i) && At(ta, i).live.None? && Room(ta, i) && RequestFits(rq)
    requires AllTame(w, ta.store, rq, results)
    requires |results| <= HISTORY_MAX && AllAwaited(w, ta, i, rq, results)
    ensures var h := Recordings(results); var d := Direct(w, ta.store, rq, h, [], w.budget);
            var r := Resumed(w, ta, i, rq, results);
            r.1 == OutcomeOf(d) && Follows(w, ta.store, rq, h, [], w.budget)
            && (d.Waits? ==> Parked(w, r.0, i, rq, h, d.call, ta.store))
    decreases |results|
  {
    hide Direct, Follows, Tame, Execute, Resume, Parked, Awaits, ParsePayload, Room;
    if results == [] {
      StartIsDirect(w, ta, i, rq);
      FollowsNothing(w, ta.store, rq);
    } else {
      var n := |results| - 1;
      ReplayRefinesDirect(w, ta, i, rq, results[..n]);
      var d := Direct(w, ta.store, rq, Recordings(results[..n]), [], w.budget);
      ResumeIsDirect(w, Resumed(w, ta, i, rq, results[..n]).0, i, rq, Recordings(results[..n]), d.call, results[n], ta.store);
    }
  }

  lemma FollowsNothing(w: World, store: Store, rq: Request)
    ensures Follows(w, store, rq, [], [], w.budget)
  {
  }

  // ----- the ninth answer -----

  /** The live request, and the answers recorded in it, are the same. */
  predicate SameHistory(a: Session, b: Session) {
    a.live.Some? && b.live.Some? && a.live.value.request == b.live.value.request && a.live.value.history == b.live.value.history
  }

  lemma CommitKeepsHistory(sha: bytes -> digest, ta: Ta, i: nat, verified: bool, call: CommitCall)
    requires IsOpen(ta, i) && At(ta, i).live.Some?
    ensures SameHistory(At(ta, i), At(CommitHostcall(sha, ta, i, verified, call).ta, i))
  {
    hide Storing, Replays, A.IsAppId;
  }

  /** No run of an agent, whatever calls it makes, touches the recorded answers. */
  lemma {:induction false} ExecKeepsHistory(w: World, ta: Ta, i: nat, rq: Request, ctx: Context, budget: nat)
    requires IsOpen(ta, i) && At(ta, i).live.Some?
    ensures SameHistory(At(ta, i), At(Exec(w, ta, i, rq, ctx, budget).0, i))
    decreases budget
  {
    hide CommitHostcall, AnswerIo;
    if budget > 0 {
      match w.agent(rq)(ctx.trace)
      case Finish(_, _) =>
      case Local(query) =>
        var a := w.local(ta.store, CommitOf(At(ta, i)), rq, ctx.trace, query);
        ExecKeepsHistory(w, ta, i, rq, ctx.(trace := ctx.trace + [LocalAnswer(a)]), budget - 1);
      case Io(call) =>
        var (reply, index) := AnswerIo(HistoryOf(At(ta, i)), ctx.index, call);
        var suspended := if reply.MustSuspend? then Some(call) else ctx.suspended;
        ExecKeepsHistory(w, ta, i, rq, Context(index, suspended, ctx.trace + [IoAnswer(reply)]), budget - 1);
      case Publish(call) =>
        CommitKeepsHistory(w.sha, ta, i, rq.verified, call);
        var c := CommitHostcall(w.sha, ta, i, rq.verified, call);
        ExecKeepsHistory(w, c.ta, i, rq, ctx.(trace := ctx.trace + [CommitAnswer(c.status, c.generation)]), budget - 1);
    }
  }

  lemma ResolveKeepsHistory(w: World, ta: Ta, i: nat, rq: Request, luck: Luck)
    requires IsOpen(ta, i) && At(ta, i).live.Some?
    ensures SameHistory(At(ta, i), At(Resolve(w, ta, i, rq, luck).0, i))
  {
    hide Exec, Suspend;
    ExecKeepsHistory(w, ta, i, rq, START, w.budget);
    var (ran, e) := Exec(w, ta, i, rq, START, w.budget);
    if e.suspended.Some? {
      Protocol.SuspendKeepsLive(w.sha, ran, i, IoOf(rq, e.suspended.value), luck.memory, luck.fits);
    }
  }

  /** The session is suspended in this request with exactly these answers recorded. */
  predicate Holds(s: Session, rq: Request, h: seq<Recorded>) {
    s.live.Some? && s.live.value.request == rq && s.live.value.history == h
  }

  lemma StartHolds(w: World, ta: Ta, i: nat, rq: Request)
    requires IsOpen(ta, i) && Execute(w, ta, i, rq, LUCKY).1.NeedHostIo?
    ensures Holds(At(Execute(w, ta, i, rq, LUCKY).0, i), rq, [])
  {
    hide Resolve;
  }

  lemma ResumeHolds(w: World, ta: Ta, i: nat, rq: Request, h: seq<Recorded>, result: bytes)
    requires IsOpen(ta, i) && Holds(At(ta, i), rq, h) && Resume(w, ta, i, rq.requestId, result, LUCKY).1.NeedHostIo?
    ensures Holds(At(Resume(w, ta, i, rq.requestId, result, LUCKY).0, i), rq, h + [Recording(result)])
  {
    hide Resolve, ResultOk, ParsePayload, Fields, Last;
    var s := At(ta, i);
    var longer := Put(ta, i, s.(live := Some(s.live.value.(history := h + [Recording(result)]))));
    ResolveKeepsHistory(w, longer, i, rq, LUCKY);
  }

  /** Each awaited resume records its answer, and nothing else does. */
  lemma {:induction false} HistoryGrows(w: World, ta: Ta, i: nat, rq: Request, results: seq<bytes>)
    requires IsOpen(ta, i) && AllAwaited(w, ta, i, rq, results) && Resumed(w, ta, i, rq, results).1.NeedHostIo?
    ensures Holds(At(Resumed(w, ta, i, rq, results).0, i), rq, Recordings(results))
    decreases |results|
  {
    hide Execute, Resume, Holds, Awaits, ParsePayload;
    if results == [] {
      StartHolds(w, ta, i, rq);
    } else {
      var n := |results| - 1;
      HistoryGrows(w, ta, i, rq, results[..n]);
      ResumeHolds(w, Resumed(w, ta, i, rq, results[..n]).0, i, rq, Recordings(results[..n]), results[n]);
    }
  }

  lemma FullHistoryFails(w: World, ta: Ta, i: nat, requestId: bytes, result: bytes, luck: Luck)
    requires IsOpen(ta, i) && At(ta, i).live.Some? && |At(ta, i).live.value.history| >= HISTORY_MAX
    requires Awaits(At(ta, i), requestId, result) && luck.workspace
    ensures var r := Resume(w, ta, i, requestId, result, luck); r.1 == Failed && At(r.0, i) == Session(None, None)
  {
    hide ResultOk, ParsePayload;
  }

  /**
   * Eight answers are all a request can take: whatever the agent does, a ninth awaited one fails and clears everything
   * the session had pending.
   */
  lemma NinthResumeFails(w: World, ta: Ta, i: nat, rq: Request, results: seq<bytes>)
    requires IsOpen(ta, i) && AllAwaited(w, ta, i, rq, results) && |results| == HISTORY_MAX + 1
    ensures var r := Resumed(w, ta, i, rq, results); r.1 == Failed && At(r.0, i) == Session(None, None)
  {
    hide Execute, Resume, Awaits, ParsePayload;
    var n := |results| - 1;
    HistoryGrows(w, ta, i, rq, results[..n]);
    FullHistoryFails(w, Resumed(w, ta, i, rq, results[..n]).0, i, rq.requestId, results[n], LUCKY);
  }

  // ----- where the refinement would break -----

  /** An agent that first makes a call too long for the host call, then a proper one, then reports what it got. */
  function Careless(t: seq<Answer>): Action {
    var long := IoCall(HttpPost, seq(128, k => 0), [], 100);
    var short := IoCall(HttpPost, [0], [], 100);
    if |t| == 0 then Io(long)
    else if t[0] == IoAnswer(TooLong) then (if |t| == 1 then Io(short) else Finish(false, []))
    else Finish(true, [7])
  }

  /**
   * When a refused call comes up while an answer of its kind is next, the rerun hands it that answer: the session that was
   * suspended at the proper call ends differently from the uninterrupted run.
   */
  lemma OversizedCallsDiverge(w: World, ta: Ta, i: nat, rq: Request, r: Recorded)
    requires IsOpen(ta, i) && Replaying(At(ta, i), [r]) && r.kind == HttpPost && |r.payload| <= 100 && w.budget >= 3
    requires w.agent(rq) == Careless
    ensures Direct(w, ta.store, rq, [], [], w.budget) == Waits(IoCall(HttpPost, [0], [], 100))
    ensures Direct(w, ta.store, rq, [r], [], w.budget) == Ends(false, [])
    ensures ReachedBy(Exec(w, ta, i, rq, START, w.budget).1) == Ends(true, [7])
    ensures !Tame(w, ta.store, rq, [r], [], w.budget)
  {
    var t1 := [IoAnswer(TooLong)];
    var t2 := t1 + [IoAnswer(Payload(r.payload))];
    var short := IoCall(HttpPost, [0], [], 100);
    assert [] + [IoAnswer(TooLong)] == t1;
    assert Careless(t1) == Io(short) && Careless(t2) == Finish(false, []);
    assert Direct(w, ta.store, rq, [], [], w.budget) == Direct(w, ta.store, rq, [], t1, w.budget - 1);
    assert Direct(w, ta.store, rq, [r], [], w.budget) == Direct(w, ta.store, rq, [r], t1, w.budget - 1);
    assert Direct(w, ta.store, rq, [r], t1, w.budget - 1) == Direct(w, ta.store, rq, [r][1..], t2, w.budget - 2);
  }
}

/** Commands touch their own session only, and a request driven by commands is the request the replay theorem is about. */
module Isolation {
  import opened Bytes
  import opened Tee
  import opened HostIoResult
  import opened Continuation
  import opened Replay

  /** All sessions but one are as they were. */
  predicate OthersSame(a: Ta, b: Ta, i: nat) {
    |a.sessions| == |b.sessions| && forall j :: 0 <= j < |a.sessions| && j != i ==> b.sessions[j] == a.sessions[j]
  }

  lemma ClearIsLocal(ta: Ta, i: nat)
    requires IsOpen(ta, i)
    ensures OthersSame(ta, ClearPending(ta, i), i) && OthersSame(ta, Abort(ta, i), i)
  {
  }

  lemma SuspendIsLocal(sha: bytes -> digest, ta: Ta, i: nat, q: IoRequest, memory: bool, fits: bool)
    requires IsOpen(ta, i)
    ensures OthersSame(ta, Suspend(sha, ta, i, q, memory, fits).0, i)
  {
  }

  lemma CommitIsLocal(sha: bytes -> digest, ta: Ta, i: nat, verified: bool, call: CommitCall)
    requires IsOpen(ta, i)
    ensures OthersSame(ta, CommitHostcall(sha, ta, i, verified, call).ta, i)
  {
    hide Storing, Replays;
  }

  lemma {:induction false} ExecIsLocal(w: World, ta: Ta, i: nat, rq: Request, ctx: Context, budget: nat)
    requires IsOpen(ta, i)
    ensures OthersSame(ta, Exec(w, ta, i, rq, ctx, budget).0, i)
    decreases budget
  {
    hide CommitHostcall, AnswerIo;
    if budget > 0 {
      match w.agent(rq)(ctx.trace)
      case Finish(_, _) =>
      case Local(query) =>
        var a := w.local(ta.store, CommitOf(At(ta, i)), rq, ctx.trace, query);
        ExecIsLocal(w, ta, i, rq, ctx.(trace := ctx.trace + [LocalAnswer(a)]), budget - 1);
      case Io(call) =>
        var (reply, index) := AnswerIo(HistoryOf(At(ta, i)), ctx.index, call);
        var suspended := if reply.MustSuspend? then Some(call) else ctx.suspended;
        ExecIsLocal(w, ta, i, rq, Context(index, suspended, ctx.trace + [IoAnswer(reply)]), budget - 1);
      case Publish(call) =>
        CommitIsLocal(w.sha, ta, i, rq.verified, call);
        var c := CommitHostcall(w.sha, ta, i, rq.verified, call);
        ExecIsLocal(w, c.ta, i, rq, ctx.(trace := ctx.trace + [CommitAnswer(c.status, c.generation)]), budget - 1);
    }
  }

  lemma ResolveIsLocal(w: World, ta: Ta, i: nat, rq: Request, luck: Luck)
    requires IsOpen(ta, i)
    ensures OthersSame(ta, Resolve(w, ta, i, rq, luck).0, i)
  {
    hide Exec, Suspend;
    ExecIsLocal(w, ta, i, rq, START, w.budget);
    var (ran, e) := Exec(w, ta, i, rq, START, w.budget);
    if e.suspended.Some? {
      SuspendIsLocal(w.sha, ran, i, IoOf(rq, e.suspended.value), luck.memory, luck.fits);
    }
  }

  lemma StartIsLocal(w: World, ta: Ta, i: nat, rq: Request, luck: Luck)
    requires IsOpen(ta, i)
    ensures OthersSame(ta, Execute(w, ta, i, rq, luck).0, i)
  {
    hide Resolve, Abort, AsksHostIo;
    ResolveIsLocal(w, ta, i, rq, luck);
    ClearIsLocal(Resolve(w, ta, i, rq, luck).0, i);
  }

  lemma ResumeIsLocal(w: World, ta: Ta, i: nat, requestId: bytes, result: bytes, luck: Luck)
    requires IsOpen(ta, i)
    ensures OthersSame(ta, Resume(w, ta, i, requestId, result, luck).0, i)
  {
    hide Resolve, Abort, AsksHostIo, ClearPending, Awaits, ParsePayload;
    ClearIsLocal(ta, i);
    var s, p := At(ta, i), ParsePayload(result);
    if s.live.Some? && p.Done? {
      var live := s.live.value;
      var longer := Put(ta, i, s.(live := Some(live.(history := live.history + [p.value]))));
      ResolveIsLocal(w, longer, i, live.request, luck);
      ClearIsLocal(Resolve(w, longer, i, live.request, luck).0, i);
    }
  }

  /**
   * A command leaves every other session as it was: opening adds an empty one at the end, closing leaves a closed one, and
   * a command to a session that is not open does nothing.
   */
  lemma CommandsAreLocal(w: World, ta: Ta, cmd: Command)
    ensures var after := Step(w, ta, cmd);
            && (cmd.Open? ==> after == ta.(sessions := ta.sessions + [Some(Session(None, None))]))
            && (!cmd.Open? ==> OthersSame(ta, after, cmd.session))
            && (!cmd.Open? && !IsOpen(ta, cmd.session) ==> after == ta)
            && (!cmd.Open? && IsOpen(ta, cmd.session) ==> (IsOpen(after, cmd.session) <==> !cmd.Close?))
  {
    hide Execute, Resume, Suspend, Abort;
    if !cmd.Open? && IsOpen(ta, cmd.session) {
      match cmd
      case Close(i) => ClearIsLocal(ta, i);
      case Probe(i, q, luck) => SuspendIsLocal(w.sha, ta, i, q, luck.memory, luck.fits);
      case Start(i, rq, luck) => StartIsLocal(w, ta, i, rq, luck);
      case Continue(i, id, result, luck) => ResumeIsLocal(w, ta, i, id, result, luck);
    }
  }

  /** Over any run, a session no command names is as it was. */
  lemma {:induction false} RunsAreLocal(w: World, ta: Ta, cmds: seq<Command>, j: nat)
    requires j < |ta.sessions| && forall k :: 0 <= k < |cmds| && !cmds[k].Open? ==> cmds[k].session != j
    ensures |RunAll(w, ta, cmds).sessions| >= |ta.sessions| && RunAll(w, ta, cmds).sessions[j] == ta.sessions[j]
    decreases |cmds|
  {
    hide Step;
    if cmds != [] {
      var n := |cmds| - 1;
      RunsAreLocal(w, ta, cmds[..n], j);
      CommandsAreLocal(w, RunAll(w, ta, cmds[..n]), cmds[n]);
    }
  }

  // ----- a request, command by command -----

  /** A start and one continue per answer. */
  function Driving(i: nat, rq: Request, results: seq<bytes>): (cmds: seq<Command>)
    ensures |cmds| == |results| + 1
  {
    if results == [] then [Start(i, rq, LUCKY)]
    else Driving(i, rq, results[..|results| - 1]) + [Continue(i, rq.requestId, results[|results| - 1], LUCKY)]
  }

  /** Driven by commands, a request goes exactly the way of its start and resumes. */
  lemma {:induction false} CommandsDriveTheRequest(w: World, ta: Ta, i: nat, rq: Request, results: seq<bytes>)
    requires IsOpen(ta, i)
    ensures RunAll(w, ta, Driving(i, rq, results)) == Resumed(w, ta, i, rq, results).0
    decreases |results|
  {
    hide Execute, Resume;
    var cmds := Driving(i, rq, results);
    if results == [] {
      assert cmds[..0] == [];
    } else {
      var n := |results| - 1;
      CommandsDriveTheRequest(w, ta, i, rq, results[..n]);
      assert cmds[..|cmds| - 1] == Driving(i, rq, results[..n]);
    }
  }

  /** What closing leaves of the shared counters, and what probing leaves in the session. */
  lemma ClosingAndProbing(w: World, ta: Ta, i: nat, q: IoRequest, luck: Luck)
    requires IsOpen(ta, i)
    ensures var c := Step(w, ta, Close(i));
            c.sessions[i].None? && c.count == ClearPending(ta, i).count && c.total == ClearPending(ta, i).total && c.store == ta.store
    ensures Step(w, ta, Probe(i, q, luck)) == Suspend(w.sha, ta, i, q, luck.memory, luck.fits).0
  {
    hide Suspend;
  }
}

/** How a request ends, and what its session then still holds. */
module Endings {
  import opened Bytes
  import opened Tee
  import opened HostIoResult
  import opened Continuation
  import opened Replay
  import Protocol
  import Transcripts

  const IDLE := Session(None, None)

  // ----- one command -----

  lemma EmptyAsksNothing()
    ensures !AsksHostIo(Output([]))
  {
  }

  /**
   * A resume the session awaited ends in one of two ways, whatever the agent does: it asks for host I/O again and the
   * answer is recorded, or the session holds neither transcript nor request any more.
   */
  lemma AwaitedResumeEnds(w: World, ta: Ta, i: nat, requestId: bytes, result: bytes, luck: Luck)
    requires IsOpen(ta, i) && Awaits(At(ta, i), requestId, result) && (At(ta, i).live.Some? ==> luck.workspace)
    ensures var (after, o) := Resume(w, ta, i, requestId, result, luck); var live := At(ta, i).live;
            if AsksHostIo(o)
            then live.Some? && Holds(At(after, i), live.value.request, live.value.history + [Recording(result)])
            else At(after, i) == IDLE
  {
    EmptyAsksNothing();
    FailureAsksNothing();
    hide Resolve, Abort, AsksHostIo, ParsePayload, Awaits;
    Protocol.AbortClears(ta, i);
    var s, p := At(ta, i), ParsePayload(result);
    if s.live.Some? && p.Done? {
      var live := s.live.value;
      var longer := Put(ta, i, s.(live := Some(live.(history := live.history + [p.value]))));
      ResolveKeepsHistory(w, longer, i, live.request, luck);
      Protocol.AbortClears(Resolve(w, longer, i, live.request, luck).0, i);
    }
  }

  lemma FailureAsksNothing()
    ensures !AsksHostIo(Failed)
  {
  }

  /** A resume that could not get its workspace, and one not awaited, change nothing. */
  lemma OtherResumesAreInert(w: World, ta: Ta, i: nat, requestId: bytes, result: bytes, luck: Luck)
    requires IsOpen(ta, i)
    requires !Awaits(At(ta, i), requestId, result) || (At(ta, i).live.Some? && !luck.workspace)
    ensures Resume(w, ta, i, requestId, result, luck) == (ta, Failed)
  {
    hide Awaits;
  }

  /** A start that fails clears the session, one that asks for host I/O leaves the request with no answers and no commit. */
  lemma StartEnds(w: World, ta: Ta, i: nat, rq: Request, luck: Luck)
    requires IsOpen(ta, i) && luck.workspace
    ensures var (after, o) := Execute(w, ta, i, rq, luck);
            && (o.Failed? ==> At(after, i) == IDLE)
            && (AsksHostIo(o) ==> At(after, i).live == Some(Live(rq, [], None)) && RequestFits(rq))
            && (!o.Failed? && !AsksHostIo(o) ==>
                  if At(ta, i).live.None? then At(after, i).live.None? else SameHistory(At(ta, i), At(after, i)))
  {
    FailureAsksNothing();
    hide Resolve, Abort, AsksHostIo;
    var done := Resolve(w, ta, i, rq, luck).0;
    Protocol.AbortClears(done, i);
    if At(ta, i).live.Some? {
      ResolveKeepsHistory(w, ta, i, rq, luck);
    } else {
      ResolveKeepsNone(w, ta, i, rq, luck);
    }
  }

  lemma {:induction false} ExecKeepsNone(w: World, ta: Ta, i: nat, rq: Request, ctx: Context, budget: nat)
    requires IsOpen(ta, i) && At(ta, i).live.None?
    ensures At(Exec(w, ta, i, rq, ctx, budget).0, i).live.None?
    decreases budget
  {
    hide Storing, Replays, AnswerIo;
    if budget > 0 {
      match w.agent(rq)(ctx.trace)
      case Finish(_, _) =>
      case Local(query) =>
        var a := w.local(ta.store, CommitOf(At(ta, i)), rq, ctx.trace, query);
        ExecKeepsNone(w, ta, i, rq, ctx.(trace := ctx.trace + [LocalAnswer(a)]), budget - 1);
      case Io(call) =>
        var (reply, index) := AnswerIo(HistoryOf(At(ta, i)), ctx.index, call);
        var suspended := if reply.MustSuspend? then Some(call) else ctx.suspended;
        ExecKeepsNone(w, ta, i, rq, Context(index, suspended, ctx.trace + [IoAnswer(reply)]), budget - 1);
      case Publish(call) =>
        CommitKeepsNone(w.sha, ta, i, rq.verified, call);
        var c := CommitHostcall(w.sha, ta, i, rq.verified, call);
        ExecKeepsNone(w, c.ta, i, rq, ctx.(trace := ctx.trace + [CommitAnswer(c.status, c.generation)]), budget - 1);
    }
  }

  lemma CommitKeepsNone(sha: bytes -> digest, ta: Ta, i: nat, verified: bool, call: CommitCall)
    requires IsOpen(ta, i) && At(ta, i).live.None?
    ensures At(CommitHostcall(sha, ta, i, verified, call).ta, i).live.None?
  {
    hide Storing;
  }

  lemma ResolveKeepsNone(w: World, ta: Ta, i: nat, rq: Request, luck: Luck)
    requires IsOpen(ta, i) && At(ta, i).live.None?
    ensures At(Resolve(w, ta, i, rq, luck).0, i).live.None?
  {
    hide Exec, Suspend;
    ExecKeepsNone(w, ta, i, rq, START, w.budget);
    var (ran, e) := Exec(w, ta, i, rq, START, w.budget);
    if e.suspended.Some? {
      Protocol.SuspendKeepsLive(w.sha, ran, i, IoOf(rq, e.suspended.value), luck.memory, luck.fits);
    }
  }

  // ----- the outcome -----

  /** An output of the agent's own asks for host I/O exactly when it is one complete map with that key. */
  lemma OutputAsksIff(output: bytes)
    ensures AsksHostIo(Output(output))
            <==> Fields(output).Some?
                 && exists k :: 0 <= k < |Fields(output).value| && Fields(output).value[k].key == Ascii("need_host_io")
  {
    hide Fields, Last, Ascii;
    if Fields(output).Some? {
      OccursIff(Fields(output).value, "need_host_io");
    }
  }

  lemma {:induction false} OccursIff(es: seq<Entry>, key: string)
    ensures Last(es, key).Some? <==> exists k :: 0 <= k < |es| && es[k].key == Ascii(key)
  {
    hide Ascii;
    if es != [] {
      OccursIff(es[1..], key);
      assert forall k :: 0 < k < |es| ==> es[k] == es[1..][k - 1];
      if Last(es[1..], key).Some? {
        var k :| 0 <= k < |es[1..]| && es[1..][k].key == Ascii(key);
        assert es[k + 1].key == Ascii(key);
      }
    }
  }

  /**
   * A run's outcome: its output if it succeeded and that fits, the call it waits at if it did not succeed and its
   * transcript could be saved, and failure otherwise.
   */
  lemma ResolveOutcome(w: World, ta: Ta, i: nat, rq: Request, luck: Luck)
    requires IsOpen(ta, i)
    ensures var o := Resolve(w, ta, i, rq, luck).1; var (ran, e) := Exec(w, ta, i, rq, START, w.budget);
            && (o.Output? <==> luck.admitted && e.ok && luck.fits)
            && (o.Output? ==> o.output == e.output)
            && (o.NeedHostIo? <==>
                  luck.admitted && !e.ok && e.suspended.Some? && luck.memory && luck.fits
                  && var q := IoOf(rq, e.suspended.value); !OverQuota(ClearPending(ran, i), q) && NamesFit(q))
            && (o.NeedHostIo? ==> Some(o.call) == e.suspended)
  {
    hide Exec, OverQuota, NamesFit, ClearPending, IoOf;
    var (ran, e) := Exec(w, ta, i, rq, START, w.budget);
    if e.suspended.Some? {
      Transcripts.SuspendAnswers(w.sha, ran, i, IoOf(rq, e.suspended.value), luck.memory, luck.fits);
    }
  }

  /** A start ends as its run does, except that a request for host I/O needs names that fit, a copy and an output buffer. */
  lemma StartOutcome(w: World, ta: Ta, i: nat, rq: Request, luck: Luck)
    requires IsOpen(ta, i)
    ensures var o, ran := Execute(w, ta, i, rq, luck).1, Resolve(w, ta, i, rq, luck).1;
            var kept := 0 < |rq.requestId| < 64 && 0 < |rq.command| < 64 && luck.copied && luck.outFits;
            o == if luck.workspace && (AsksHostIo(ran) ==> kept) then ran else Failed
  {
    FailureAsksNothing();
    hide Resolve, AsksHostIo, Abort;
  }

  /** An awaited resume ends as the run over one more answer does, if that answer is readable, one of at most eight, and copied. */
  lemma ResumeOutcome(w: World, ta: Ta, i: nat, requestId: bytes, result: bytes, luck: Luck)
    requires IsOpen(ta, i) && Awaits(At(ta, i), requestId, result)
    ensures var o, live := Resume(w, ta, i, requestId, result, luck).1, At(ta, i).live;
            if live.None? then o == if luck.outFits then Output([]) else Failed
            else if luck.workspace && luck.copied && ParsePayload(result).Done? && |live.value.history| < 8 then
              var longer := live.value.(history := live.value.history + [ParsePayload(result).value]);
              var ran := Resolve(w, Put(ta, i, At(ta, i).(live := Some(longer))), i, live.value.request, luck).1;
              o == if AsksHostIo(ran) ==> luck.outFits then ran else Failed
            else o == Failed
  {
    FailureAsksNothing();
    hide Resolve, AsksHostIo, Abort, ParsePayload, Awaits;
  }

  // ----- a whole request -----

  /**
   * Once an awaited resume of a request has produced output or failed, the session holds nothing: no further resume is
   * awaited, and any that is tried changes nothing.
   */
  lemma EndedRequestIsOver(w: World, ta: Ta, i: nat, rq: Request, results: seq<bytes>, requestId: bytes, result: bytes, luck: Luck)
    requires IsOpen(ta, i) && results != [] && AllAwaited(w, ta, i, rq, results)
    requires !AsksHostIo(Resumed(w, ta, i, rq, results).1)
    ensures var end := Resumed(w, ta, i, rq, results).0;
            At(end, i) == IDLE && !Awaits(At(end, i), requestId, result)
            && Resume(w, end, i, requestId, result, luck) == (end, Failed)
  {
    hide Execute, AsksHostIo, ParsePayload, Resume, ResultOk;
    var n := |results| - 1;
    AwaitedResumeEnds(w, Resumed(w, ta, i, rq, results[..n]).0, i, rq.requestId, results[n], LUCKY);
    var end := Resumed(w, ta, i, rq, results).0;
    OtherResumesAreInert(w, end, i, requestId, result, luck);
  }
}

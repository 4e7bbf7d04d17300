/** What a saved transcript holds, and what that means for the commits it admits. */
module Transcripts {
  import opened Bytes
  import opened Tee
  import opened HostIoResult
  import opened Continuation
  import Protocol
  import A = AppRecord

  // ----- one save -----

  /** The transcript is of this request: its own names and kind, the hash of its input and the hash of its body. */
  predicate TranscriptOf(sha: bytes -> digest, q: IoRequest, p: Pending) {
    p.requestId == q.requestId && p.command == q.command && p.ioId == q.ioId && p.kind == q.kind && p.sequence == 1
    && p.inputSha == sha(q.input) && p.body == q.body && p.bodySha == sha(p.body)
  }

  /** A request is saved exactly when the quota has room, its names fit and memory suffices, and then as what it is. */
  lemma SavedTranscript(sha: bytes -> digest, ta: Ta, i: nat, q: IoRequest, memory: bool)
    requires IsOpen(ta, i)
    ensures var (saved, ok) := SavePending(sha, ta, i, q, memory); var room := ClearPending(ta, i);
            && (ok <==> !OverQuota(room, q) && NamesFit(q) && memory)
            && (ok ==> At(saved, i).pending.Some? && TranscriptOf(sha, q, At(saved, i).pending.value))
            && (!ok ==> saved == room && At(saved, i).pending.None?)
            && At(saved, i).live == At(ta, i).live && saved.store == ta.store
  {
  }

  /** A suspension succeeds exactly when its request is saved and the response fits; otherwise the session holds no
      transcript and the quota is what it was without one. */
  lemma SuspendAnswers(sha: bytes -> digest, ta: Ta, i: nat, q: IoRequest, memory: bool, fits: bool)
    requires IsOpen(ta, i)
    ensures var (after, ok) := Suspend(sha, ta, i, q, memory, fits); var room := ClearPending(ta, i);
            && (ok <==> !OverQuota(room, q) && NamesFit(q) && memory && fits)
            && (ok ==> At(after, i).pending.Some? && TranscriptOf(sha, q, At(after, i).pending.value))
            && (!ok ==> after.sessions == room.sessions && At(after, i).pending.None?
                        && after.count == room.count && after.total == room.total)
  {
    SavedTranscript(sha, ta, i, q, memory);
    hide OverQuota, NamesFit;
    var c := ClearPending(ta, i);
    assert c.sessions[i := Some(At(c, i))] == c.sessions;
  }

  /** A suspended run leaves the transcript of the very call it suspended at. */
  lemma SuspendedCall(w: World, ta: Ta, i: nat, rq: Request, luck: Luck)
    requires IsOpen(ta, i) && Resolve(w, ta, i, rq, luck).1.NeedHostIo?
    ensures var (done, o) := Resolve(w, ta, i, rq, luck); var p := At(done, i).pending;
            && p.Some? && p.value.requestId == rq.requestId && p.value.command == Ascii("resolve_app") && p.value.sequence == 1
            && p.value.kind == o.call.kind && p.value.body == o.call.body
            && p.value.ioId == (match o.call.kind case HttpPost => Ascii("teep-http-1") case CreateEvidence => Ascii("teep-evidence-1"))
            && p.value.bodySha == w.sha(o.call.body) && p.value.inputSha == w.sha(rq.input)
  {
    hide Exec, Ascii, ClearPending;
    var (ran, e) := Exec(w, ta, i, rq, START, w.budget);
    SavedTranscript(w.sha, ran, i, IoOf(rq, e.suspended.value), luck.memory);
  }

  // ----- every run -----

  predicate Genuine(sha: bytes -> digest, p: Pending) {
    p.bodySha == sha(p.body) && p.sequence == 1 && 0 < |p.requestId| < 64 && 0 < |p.command| < 64 && |p.ioId| < 64
  }

  predicate AllGenuine(sha: bytes -> digest, ta: Ta) {
    forall j :: 0 <= j < |ta.sessions| && ta.sessions[j].Some? && ta.sessions[j].value.pending.Some? ==>
                  Genuine(sha, ta.sessions[j].value.pending.value)
  }

  lemma ClearGenuine(sha: bytes -> digest, ta: Ta, i: nat)
    requires IsOpen(ta, i) && AllGenuine(sha, ta)
    ensures AllGenuine(sha, ClearPending(ta, i)) && AllGenuine(sha, Abort(ta, i))
  {
    hide Genuine;
  }

  lemma SuspendGenuine(sha: bytes -> digest, ta: Ta, i: nat, q: IoRequest, memory: bool, fits: bool)
    requires IsOpen(ta, i) && AllGenuine(sha, ta)
    ensures AllGenuine(sha, Suspend(sha, ta, i, q, memory, fits).0)
  {
    hide ClearPending, OverQuota;
    ClearGenuine(sha, ta, i);
    var (saved, ok) := SavePending(sha, ta, i, q, memory);
    assert AllGenuine(sha, saved);
    ClearGenuine(sha, saved, i);
  }

  lemma CommitGenuine(sha: bytes -> digest, ta: Ta, i: nat, verified: bool, call: CommitCall)
    requires IsOpen(ta, i) && AllGenuine(sha, ta)
    ensures AllGenuine(sha, CommitHostcall(sha, ta, i, verified, call).ta)
  {
    hide Storing, Replays, A.IsAppId, Genuine;
  }

  lemma {:induction false} ExecGenuine(w: World, ta: Ta, i: nat, rq: Request, ctx: Context, budget: nat)
    requires IsOpen(ta, i) && AllGenuine(w.sha, ta)
    ensures AllGenuine(w.sha, Exec(w, ta, i, rq, ctx, budget).0)
    decreases budget
  {
    hide CommitHostcall, AnswerIo, AllGenuine;
    if budget > 0 {
      match w.agent(rq)(ctx.trace)
      case Finish(_, _) =>
      case Local(query) =>
        var a := w.local(ta.store, CommitOf(At(ta, i)), rq, ctx.trace, query);
        ExecGenuine(w, ta, i, rq, ctx.(trace := ctx.trace + [LocalAnswer(a)]), budget - 1);
      case Io(call) =>
        var (reply, index) := AnswerIo(HistoryOf(At(ta, i)), ctx.index, call);
        var suspended := if reply.MustSuspend? then Some(call) else ctx.suspended;
        ExecGenuine(w, ta, i, rq, Context(index, suspended, ctx.trace + [IoAnswer(reply)]), budget - 1);
      case Publish(call) =>
        CommitGenuine(w.sha, ta, i, rq.verified, call);
        var c := CommitHostcall(w.sha, ta, i, rq.verified, call);
        ExecGenuine(w, c.ta, i, rq, ctx.(trace := ctx.trace + [CommitAnswer(c.status, c.generation)]), budget - 1);
    }
  }

  lemma ResolveGenuine(w: World, ta: Ta, i: nat, rq: Request, luck: Luck)
    requires IsOpen(ta, i) && AllGenuine(w.sha, ta)
    ensures AllGenuine(w.sha, Resolve(w, ta, i, rq, luck).0)
  {
    hide Exec, Suspend, AllGenuine;
    ExecGenuine(w, ta, i, rq, START, w.budget);
    var (ran, e) := Exec(w, ta, i, rq, START, w.budget);
    if e.suspended.Some? {
      SuspendGenuine(w.sha, ran, i, IoOf(rq, e.suspended.value), luck.memory, luck.fits);
    }
  }

  lemma PutLiveGenuine(sha: bytes -> digest, ta: Ta, i: nat, live: Option<Live>)
    requires IsOpen(ta, i) && AllGenuine(sha, ta)
    ensures AllGenuine(sha, Put(ta, i, At(ta, i).(live := live)))
  {
    hide Genuine;
  }

  lemma ResumeGenuine(w: World, ta: Ta, i: nat, requestId: bytes, result: bytes, luck: Luck)
    requires IsOpen(ta, i) && AllGenuine(w.sha, ta)
    ensures AllGenuine(w.sha, Resume(w, ta, i, requestId, result, luck).0)
  {
    hide Resolve, Abort, AsksHostIo, ClearPending, Awaits, ParsePayload, AllGenuine;
    ClearGenuine(w.sha, ta, i);
    var s, p := At(ta, i), ParsePayload(result);
    if s.live.Some? && p.Done? {
      var live := s.live.value;
      var longer := Put(ta, i, s.(live := Some(live.(history := live.history + [p.value]))));
      PutLiveGenuine(w.sha, ta, i, Some(live.(history := live.history + [p.value])));
      ResolveGenuine(w, longer, i, live.request, luck);
      ClearGenuine(w.sha, Resolve(w, longer, i, live.request, luck).0, i);
    }
  }

  lemma StartGenuine(w: World, ta: Ta, i: nat, rq: Request, luck: Luck)
    requires IsOpen(ta, i) && AllGenuine(w.sha, ta)
    ensures AllGenuine(w.sha, Execute(w, ta, i, rq, luck).0)
  {
    hide Resolve, Abort, AsksHostIo, AllGenuine;
    ResolveGenuine(w, ta, i, rq, luck);
    var done := Resolve(w, ta, i, rq, luck).0;
    ClearGenuine(w.sha, done, i);
    PutLiveGenuine(w.sha, done, i, Some(Live(rq, [], None)));
  }

  lemma StepGenuine(w: World, ta: Ta, cmd: Command)
    requires AllGenuine(w.sha, ta)
    ensures AllGenuine(w.sha, Step(w, ta, cmd))
  {
    hide Genuine, Execute, Resume, Suspend, Abort;
    match cmd
    case Open =>
    case Close(i) => if IsOpen(ta, i) { ClearGenuine(w.sha, ta, i); }
    case Probe(i, q, luck) => if IsOpen(ta, i) { SuspendGenuine(w.sha, ta, i, q, luck.memory, luck.fits); }
    case Start(i, rq, luck) => if IsOpen(ta, i) { StartGenuine(w, ta, i, rq, luck); }
    case Continue(i, id, result, luck) => if IsOpen(ta, i) { ResumeGenuine(w, ta, i, id, result, luck); }
  }

  /** In every reachable state every transcript any session holds names the hash of the body it holds. */
  lemma {:induction false} TranscriptsAreGenuine(w: World, store: Store, cmds: seq<Command>)
    ensures AllGenuine(w.sha, RunAll(w, Initial(store), cmds))
    decreases |cmds|
  {
    hide Step;
    if cmds != [] {
      TranscriptsAreGenuine(w, store, cmds[..|cmds| - 1]);
      StepGenuine(w, RunAll(w, Initial(store), cmds[..|cmds| - 1]), cmds[|cmds| - 1]);
    }
  }

  /** So a commit call changes storage only in a session that sent a body whose hash is the digest it consumes. */
  lemma StorageNeedsSentBody(sha: bytes -> digest, ta: Ta, i: nat, verified: bool, call: CommitCall)
    requires IsOpen(ta, i) && AllGenuine(sha, ta)
    ensures var c := CommitHostcall(sha, ta, i, verified, call); var p := At(ta, i).pending;
            c.ta.store != ta.store ==>
              p.Some? && p.value.kind == HttpPost && sha(p.value.body) == QueryDigest(call) && At(c.ta, i).pending.None?
  {
    hide CommitHostcall;
    Protocol.StorageNeedsTranscript(sha, ta, i, verified, call);
    assert At(ta, i).pending.Some? ==> Genuine(sha, ta.sessions[i].value.pending.value);
  }
}

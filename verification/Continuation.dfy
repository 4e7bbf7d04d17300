/**
 * The host-I/O continuation protocol: sessions that suspend on a host call, keep a transcript of it
 * under a quota shared by all sessions, and resume by running the agent again over the recorded
 * answers.
 */
module Continuation {
  import opened Bytes
  import opened Tee
  import opened HostIoResult
  import opened AcceptanceStore
  import opened CatalogStore
  import opened AppStore
  import A = AppRecord
  import C = CatalogRecord

  const HISTORY_MAX := 8
  const TRANSCRIPT_MAX := 32768
  const COUNT_MAX := 2
  const AGGREGATE_MAX := 65536

  /** A resolve request: the agent module, its input, and what it was called with. */
  datatype Request = Request(requestId: bytes, command: bytes, wasm: bytes, input: bytes, extras: seq<bytes>, verified: bool)

  datatype CommitRecord =
    CommitRecord(app: bool, query: digest, payload: digest, sequence: u64, expected: u64, generation: u64, length: nat)

  /** A request that is suspended or being resumed: the recorded answers and the recorded commit. */
  datatype Live = Live(request: Request, history: seq<Recorded>, commit: Option<CommitRecord>)

  datatype Session = Session(pending: Option<Pending>, live: Option<Live>)

  /** What the protocol has done so far, oldest first. */
  datatype Event = Saved(session: nat, sha: digest) | Attempted(session: nat, sha: digest)

  /** All sessions (None once closed), the two shared counters, and protected storage. */
  datatype Ta = Ta(sessions: seq<Option<Session>>, count: nat, total: nat, store: Store, log: seq<Event>)

  predicate IsOpen(ta: Ta, i: nat) { i < |ta.sessions| && ta.sessions[i].Some? }

  function At(ta: Ta, i: nat): Session
    requires IsOpen(ta, i)
  {
    ta.sessions[i].value
  }

  function Put(ta: Ta, i: nat, s: Session): (r: Ta)
    requires IsOpen(ta, i)
    ensures IsOpen(r, i) && |r.sessions| == |ta.sessions|
  {
    ta.(sessions := ta.sessions[i := Some(s)])
  }

  // ----- transcripts -----

  predicate HoldsHttp(s: Option<Session>) {
    s.Some? && s.value.pending.Some? && s.value.pending.value.kind == HttpPost
  }

  /** pending_host_io_clear, with its two underflow branches. */
  function ClearPending(ta: Ta, i: nat): (r: Ta)
    requires IsOpen(ta, i)
    ensures IsOpen(r, i) && |r.sessions| == |ta.sessions|
  {
    var s := At(ta, i);
    var cleared := Put(ta, i, s.(pending := None));
    if !HoldsHttp(ta.sessions[i]) then cleared
    else
      var n := |s.pending.value.body|;
      cleared.(count := if ta.count > 0 then ta.count - 1 else 0, total := if ta.total >= n then ta.total - n else 0)
  }

  datatype IoRequest = IoRequest(requestId: bytes, command: bytes, input: bytes, ioId: bytes, kind: IoKind, body: bytes)

  /** The quota test of save_pending_host_io_request; the last two conditions are the aggregate limit. */
  predicate OverQuota(ta: Ta, q: IoRequest) {
    q.kind == HttpPost
    && (|q.body| > TRANSCRIPT_MAX || ta.count >= COUNT_MAX || ta.total > AGGREGATE_MAX
        || |q.body| > AGGREGATE_MAX - ta.total)
  }

  predicate NamesFit(q: IoRequest) {
    0 < |q.requestId| < 64 && 0 < |q.command| < 64 && |q.ioId| < 64
  }

  function PendingOf(sha: Sha, q: IoRequest): Pending {
    Pending(q.requestId, q.command, q.ioId, q.kind, 1, sha(q.input), sha(q.body), q.body)
  }

  /** save_pending_host_io_request; `memory` tells whether the body copy could be allocated. */
  function SavePending(sha: Sha, ta: Ta, i: nat, q: IoRequest, memory: bool): (r: (Ta, bool))
    requires IsOpen(ta, i)
    ensures IsOpen(r.0, i) && |r.0.sessions| == |ta.sessions|
  {
    var c := ClearPending(ta, i);
    if OverQuota(c, q) || !NamesFit(q) || !memory then (c, false)
    else
      var p := PendingOf(sha, q);
      var saved := Put(c, i, At(c, i).(pending := Some(p)));
      if q.kind != HttpPost then (saved, true)
      else (saved.(count := c.count + 1, total := c.total + |q.body|, log := c.log + [Saved(i, p.bodySha)]), true)
  }

  /** Saving and then failing to fit the response clears the transcript again. */
  function Suspend(sha: Sha, ta: Ta, i: nat, q: IoRequest, memory: bool, fits: bool): (r: (Ta, bool))
    requires IsOpen(ta, i)
    ensures IsOpen(r.0, i) && |r.0.sessions| == |ta.sessions|
  {
    var (saved, ok) := SavePending(sha, ta, i, q, memory);
    if ok && !fits then (ClearPending(saved, i), false) else (saved, ok)
  }

  /** teep_agent_live_abort and the cleanup of every terminal path of a resume. */
  function Abort(ta: Ta, i: nat): (r: Ta)
    requires IsOpen(ta, i)
    ensures IsOpen(r, i) && |r.sessions| == |ta.sessions|
  {
    var c := ClearPending(ta, i);
    Put(c, i, At(c, i).(live := None))
  }

  // ----- commit host calls -----

  /** Faults after which the trusted application is still running. */
  type returning = f: Fault | f != CutAfterCreate && f != CutAfterClose witness NoFault

  datatype CommitCall =
    | AcceptCall(accept: Accept, publish: returning, noted: Option<Code>)
    | CatalogCall(catalog: CatalogRequest, staging: returning, publish: returning, noted: Option<Code>)
    | AppCall(app: AppRequest, staging: returning, publish: returning, noted: Option<Code>)

  function QueryDigest(call: CommitCall): digest {
    match call
    case AcceptCall(a, _, _) => a.digest
    case CatalogCall(q, _, _, _) => q.accept.digest
    case AppCall(q, _, _, _) => q.accept.digest
  }

  /** acceptance_host_status; `noted` is the failure, if any, to store the acceptance result object. */
  function StatusOf(r: Result<u64>, noted: Option<Code>): nat {
    match if r.Done? && noted.Some? then Err(noted.value) else r
    case Done(_) => 0
    case Err(BadParameters) => 1
    case Err(ExcessData) => 2
    case Err(Overflow) => 2
    case Err(ItemNotFound) => 3
    case Err(BadFormat) => 4
    case Err(CorruptObject) => 4
    case Err(NotSupported) => 4
    case Err(Security) => 4
    case Err(AccessConflict) => 9
    case Err(_) => 7
  }

  datatype Called = Called(ta: Ta, status: nat, generation: u64)

  /** What the storage layer does with the call. */
  function Storing(sha: Sha, store: Store, call: CommitCall): Reply {
    match call
    case AcceptCall(a, publish, _) => Commit(store, a, publish)
    case CatalogCall(q, staging, publish, _) => CommitCatalog(sha, store, q, staging, publish)
    case AppCall(q, staging, publish, _) => CommitApp(sha, store, q, staging, publish)
  }

  /** The record a successful catalog or application commit leaves in a live request. */
  function RecordOf(call: CommitCall, generation: u64): CommitRecord
    requires !call.AcceptCall?
  {
    match call
    case CatalogCall(q, _, _, _) =>
      CommitRecord(false, q.accept.digest, q.claimed, q.accept.sequence, q.accept.expected, generation, |q.catalog|)
    case AppCall(q, _, _, _) =>
      CommitRecord(true, q.accept.digest, q.claimed, q.accept.sequence, q.accept.expected, generation, |q.wasm|)
  }

  /** The call repeats the recorded commit argument by argument, and its sequence is still the accepted one. */
  predicate Replays(sha: Sha, store: Store, call: CommitCall, c: CommitRecord)
    requires !call.AcceptCall?
  {
    var (a, payload) := match call case CatalogCall(q, _, _, _) => (q.accept, q.catalog) case AppCall(q, _, _, _) => (q.accept, q.wasm);
    RecordOf(call, c.generation) == c && sha(payload) == c.payload
    && var r := ComponentSequence(store, a.id); r.Done? && r.value.1 == a.sequence
  }

  /** The transcript gate, the storage commit, and the consumption of the transcript. */
  function Attempt(sha: Sha, ta: Ta, i: nat, call: CommitCall): (r: Called)
    requires IsOpen(ta, i)
    ensures IsOpen(r.ta, i) && |r.ta.sessions| == |ta.sessions|
  {
    var s := At(ta, i);
    if !HoldsHttp(ta.sessions[i]) then Called(ta, 9, 0)
    else if s.pending.value.bodySha != QueryDigest(call) then Called(ClearPending(ta, i), 9, 0)
    else
      var reply := Storing(sha, ta.store, call);
      var stored := ta.(store := reply.store, log := ta.log + [Attempted(i, QueryDigest(call))]);
      var ok := reply.result.Done? && call.noted.None?;
      var recorded :=
        if ok && !call.AcceptCall? && s.live.Some?
        then Put(stored, i, s.(live := Some(s.live.value.(commit := Some(RecordOf(call, reply.result.value))))))
        else stored;
      Called(ClearPending(recorded, i), StatusOf(reply.result, call.noted), if reply.result.Done? then reply.result.value else 0)
  }

  /** The three commit host calls. */
  function CommitHostcall(sha: Sha, ta: Ta, i: nat, verified: bool, call: CommitCall): (r: Called)
    requires IsOpen(ta, i)
    ensures IsOpen(r.ta, i) && |r.ta.sessions| == |ta.sessions|
  {
    var live := At(ta, i).live;
    match call
    case AcceptCall(a, _, _) =>
      if a.id == [] then Called(ClearPending(ta, i), 1, 0) else Attempt(sha, ta, i, call)
    case CatalogCall(q, _, _, _) =>
      if q.accept.id != C.DEFAULT_ID || q.catalog == [] || |q.catalog| > 65536 then Called(ClearPending(ta, i), 1, 0)
      else if !verified then Called(ClearPending(ta, i), 8, 0)
      else if live.Some? && live.value.commit.Some? then
        if Replays(sha, ta.store, call, live.value.commit.value) then Called(ta, 0, live.value.commit.value.generation)
        else Called(ta, 9, 0)
      else Attempt(sha, ta, i, call)
    case AppCall(q, _, _, _) =>
      if !A.IsAppId(q.accept.id) || q.wasm == [] || |q.wasm| > A.MAX_APP then Called(ta, 1, 0)
      else if !verified then Called(ta, 8, 0)
      else if live.Some? && live.value.commit.Some? then
        if Replays(sha, ta.store, call, live.value.commit.value) then Called(ta, 0, live.value.commit.value.generation)
        else Called(ta, 9, 0)
      else Attempt(sha, ta, i, call)
  }

  // ----- the agent -----

  datatype IoCall = IoCall(kind: IoKind, target: bytes, body: bytes, capacity: nat)

  datatype IoReply = Payload(payload: bytes) | TooSmall(needed: nat) | TooLong | MustSuspend

  predicate Oversized(call: IoCall) {
    match call.kind
    case HttpPost => |call.target| >= 128 || |call.body| > TRANSCRIPT_MAX
    case CreateEvidence => |call.body| > 64 || |call.target| > 128
  }

  /** teep_host_http_post and teep_host_create_evidence: the next recorded answer of that kind, or suspend. */
  function AnswerIo(history: seq<Recorded>, index: nat, call: IoCall): (IoReply, nat) {
    if index < |history| && history[index].kind == call.kind then
      if |history[index].payload| > call.capacity then (TooSmall(|history[index].payload|), index)
      else (Payload(history[index].payload), index + 1)
    else if Oversized(call) then (TooLong, index)
    else (MustSuspend, index)
  }

  datatype Action = Local(query: bytes) | Io(io: IoCall) | Publish(commit: CommitCall) | Finish(ok: bool, output: bytes)

  datatype Answer = LocalAnswer(answer: bytes) | IoAnswer(reply: IoReply) | CommitAnswer(status: nat, generation: u64)

  /** An agent decides its next action from the answers it has had. */
  type Agent = seq<Answer> -> Action

  /** The hash, the meaning of an agent module, the answers to its local calls, and the instruction budget. */
  datatype World =
    World(sha: Sha, agent: Request -> Agent, local: (Store, Option<CommitRecord>, Request, seq<Answer>, bytes) -> bytes,
          budget: nat)

  datatype Context = Context(index: nat, suspended: Option<IoCall>, trace: seq<Answer>)

  const START := Context(0, None, [])

  datatype Ended = Ended(ok: bool, output: bytes, suspended: Option<IoCall>)

  function HistoryOf(s: Session): seq<Recorded> { if s.live.Some? then s.live.value.history else [] }

  function CommitOf(s: Session): Option<CommitRecord> { if s.live.Some? then s.live.value.commit else None }

  /** One run of the agent from its entry point; every action costs budget, and without any it traps. */
  function Exec(w: World, ta: Ta, i: nat, rq: Request, ctx: Context, budget: nat): (r: (Ta, Ended))
    requires IsOpen(ta, i)
    ensures IsOpen(r.0, i) && |r.0.sessions| == |ta.sessions|
    decreases budget
  {
    if budget == 0 then (ta, Ended(false, [], ctx.suspended))
    else
      match w.agent(rq)(ctx.trace)
      case Finish(ok, output) => (ta, Ended(ok, output, ctx.suspended))
      case Local(query) =>
        var a := w.local(ta.store, CommitOf(At(ta, i)), rq, ctx.trace, query);
        Exec(w, ta, i, rq, ctx.(trace := ctx.trace + [LocalAnswer(a)]), budget - 1)
      case Io(call) =>
        var (reply, index) := AnswerIo(HistoryOf(At(ta, i)), ctx.index, call);
        var suspended := if reply.MustSuspend? then Some(call) else ctx.suspended;
        Exec(w, ta, i, rq, Context(index, suspended, ctx.trace + [IoAnswer(reply)]), budget - 1)
      case Publish(call) =>
        var c := CommitHostcall(w.sha, ta, i, rq.verified, call);
        Exec(w, c.ta, i, rq, ctx.(trace := ctx.trace + [CommitAnswer(c.status, c.generation)]), budget - 1)
  }

  /**
   * Which allocations and buffers suffice during one command: the output workspace, the engine, the transcript copy, the
   * agent's own output, the copy of the request or of the answer, and the caller's buffer.
   */
  datatype Luck = Luck(workspace: bool, admitted: bool, memory: bool, fits: bool, copied: bool, outFits: bool)

  datatype Outcome = NeedHostIo(call: IoCall) | Output(output: bytes) | Failed

  function IoOf(rq: Request, call: IoCall): IoRequest {
    IoRequest(rq.requestId, Ascii("resolve_app"), rq.input,
              if call.kind == HttpPost then Ascii("teep-http-1") else Ascii("teep-evidence-1"), call.kind, call.body)
  }

  /** execute_teep_agent_resolve: a run that did not succeed but asked for host I/O suspends. */
  function Resolve(w: World, ta: Ta, i: nat, rq: Request, luck: Luck): (r: (Ta, Outcome))
    requires IsOpen(ta, i)
    ensures IsOpen(r.0, i) && |r.0.sessions| == |ta.sessions|
  {
    if !luck.admitted then (ta, Failed)
    else
      var (ran, e) := Exec(w, ta, i, rq, START, w.budget);
      if e.ok then (ran, if luck.fits then Output(e.output) else Failed)
      else if e.suspended.None? then (ran, Failed)
      else
        var (saved, ok) := Suspend(w.sha, ran, i, IoOf(rq, e.suspended.value), luck.memory, luck.fits);
        (saved, if ok then NeedHostIo(e.suspended.value) else Failed)
  }

  /** teep_output_is_need_host_io, on an output the agent produced itself. */
  predicate AsksHostIo(o: Outcome) {
    o.NeedHostIo? || (o.Output? && Fields(o.output).Some? && Last(Fields(o.output).value, "need_host_io").Some?)
  }

  predicate RequestFits(rq: Request) { 0 < |rq.requestId| < 64 && 0 < |rq.command| < 64 }

  /** An execute command that resolves through the agent. */
  function Execute(w: World, ta: Ta, i: nat, rq: Request, luck: Luck): (r: (Ta, Outcome))
    requires IsOpen(ta, i)
    ensures IsOpen(r.0, i) && |r.0.sessions| == |ta.sessions|
  {
    if !luck.workspace then (ta, Failed)
    else
      var (done, o) := Resolve(w, ta, i, rq, luck);
      if o.Failed? then (Abort(done, i), Failed)
      else if !AsksHostIo(o) then (done, o)
      else if !RequestFits(rq) || !luck.copied || !luck.outFits then (Abort(done, i), Failed)
      else (Put(done, i, At(done, i).(live := Some(Live(rq, [], None)))), o)
  }

  /** The request id and the answer match what this session is waiting for. */
  predicate Awaits(s: Session, requestId: bytes, result: bytes) {
    s.pending.Some? && requestId == s.pending.value.requestId && ResultOk(result, s.pending.value)
    && (s.live.Some? ==> requestId == s.live.value.request.requestId)
  }

  /** pending_teep_live_append_history, then the rerun over the longer history. */
  function Rerun(w: World, ta: Ta, i: nat, answer: Recorded, luck: Luck): (r: (Ta, Outcome))
    requires IsOpen(ta, i) && At(ta, i).live.Some?
    ensures IsOpen(r.0, i) && |r.0.sessions| == |ta.sessions|
  {
    var s := At(ta, i);
    var live := s.live.value;
    if |live.history| >= HISTORY_MAX || !luck.copied then (Abort(ta, i), Failed)
    else
      var longer := Put(ta, i, s.(live := Some(live.(history := live.history + [answer]))));
      var (done, o) := Resolve(w, longer, i, live.request, luck);
      if o.Failed? then (Abort(done, i), Failed)
      else if AsksHostIo(o) then (if luck.outFits then (done, o) else (Abort(done, i), Failed))
      else (Abort(done, i), o)
  }

  /** A resume command: resume_pending_teep_live, or build_resume_final_response without a live request. */
  function Resume(w: World, ta: Ta, i: nat, requestId: bytes, result: bytes, luck: Luck): (r: (Ta, Outcome))
    requires IsOpen(ta, i)
    ensures IsOpen(r.0, i) && |r.0.sessions| == |ta.sessions|
  {
    var s := At(ta, i);
    if !Awaits(s, requestId, result) then (ta, Failed)
    else if s.live.None? then (ClearPending(ta, i), if luck.outFits then Output([]) else Failed)
    else if !luck.workspace then (ta, Failed)
    else
      var p := ParsePayload(result);
      if p.Err? then (Abort(ta, i), Failed) else Rerun(w, ta, i, p.value, luck)
  }

  // ----- commands -----

  datatype Command =
    | Open
    | Close(session: nat)
    | Probe(session: nat, io: IoRequest, luck: Luck)
    | Start(session: nat, request: Request, luck: Luck)
    | Continue(session: nat, requestId: bytes, result: bytes, luck: Luck)

  function Step(w: World, ta: Ta, cmd: Command): Ta {
    match cmd
    case Open => ta.(sessions := ta.sessions + [Some(Session(None, None))])
    case Close(i) => if IsOpen(ta, i) then var c := Abort(ta, i); c.(sessions := c.sessions[i := None]) else ta
    case Probe(i, q, luck) => if IsOpen(ta, i) then Suspend(w.sha, ta, i, q, luck.memory, luck.fits).0 else ta
    case Start(i, rq, luck) => if IsOpen(ta, i) then Execute(w, ta, i, rq, luck).0 else ta
    case Continue(i, id, result, luck) => if IsOpen(ta, i) then Resume(w, ta, i, id, result, luck).0 else ta
  }

  function RunAll(w: World, ta: Ta, cmds: seq<Command>): Ta {
    if cmds == [] then ta else Step(w, RunAll(w, ta, cmds[..|cmds| - 1]), cmds[|cmds| - 1])
  }

  function Initial(store: Store): Ta { Ta([], 0, 0, store, []) }
}

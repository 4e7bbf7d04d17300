/** What the commit host calls answer, and when. */
module HostcallAnswers {
  import opened Bytes
  import opened Tee
  import opened HostIoResult
  import AcceptanceRecord
  import opened AcceptanceUpdate
  import opened AcceptanceStore
  import opened CatalogStore
  import opened AppStore
  import opened Continuation
  import opened CommitAnswers
  import A = AppRecord
  import C = CatalogRecord

  // ----- the arguments -----

  function AcceptIn(call: CommitCall): Accept {
    match call case AcceptCall(a, _, _) => a case CatalogCall(q, _, _, _) => q.accept case AppCall(q, _, _, _) => q.accept
  }

  function PayloadIn(call: CommitCall): bytes
    requires !call.AcceptCall?
  {
    match call case CatalogCall(q, _, _, _) => q.catalog case AppCall(q, _, _, _) => q.wasm
  }

  function ClaimedIn(call: CommitCall): digest
    requires !call.AcceptCall?
  {
    match call case CatalogCall(q, _, _, _) => q.claimed case AppCall(q, _, _, _) => q.claimed
  }

  predicate ArgumentsOk(call: CommitCall) {
    match call
    case AcceptCall(a, _, _) => a.id != []
    case CatalogCall(q, _, _, _) => q.accept.id == C.DEFAULT_ID && 0 < |q.catalog| <= 65536
    case AppCall(q, _, _, _) => A.IsAppId(q.accept.id) && 0 < |q.wasm| <= A.MAX_APP
  }

  /** Catalogs and applications are committed for verified requests only. */
  predicate Allowed(verified: bool, call: CommitCall) { call.AcceptCall? || verified }

  /** The commit recorded in the session's live request. */
  function RecordedIn(ta: Ta, i: nat): Option<CommitRecord>
    requires IsOpen(ta, i)
  {
    CommitOf(At(ta, i))
  }

  /** Bad arguments answer 1 and an unverified request 8, before storage is looked at; an application call keeps the transcript. */
  lemma RefusedCalls(sha: Sha, ta: Ta, i: nat, verified: bool, call: CommitCall)
    requires IsOpen(ta, i) && (!ArgumentsOk(call) || !Allowed(verified, call))
    ensures CommitHostcall(sha, ta, i, verified, call)
            == Called(if call.AppCall? then ta else ClearPending(ta, i), if ArgumentsOk(call) then 8 else 1, 0)
  {
    hide ClearPending, Attempt, A.IsAppId;
  }

  // ----- a repeated commit -----

  /** The call is the recorded one: kind, digests, sequence, generation and length, and the payload has the recorded hash. */
  predicate Repeats(sha: Sha, call: CommitCall, c: CommitRecord)
    requires !call.AcceptCall?
  {
    c.app == call.AppCall? && c.query == AcceptIn(call).digest && c.payload == ClaimedIn(call)
    && c.sequence == AcceptIn(call).sequence && c.expected == AcceptIn(call).expected && c.length == |PayloadIn(call)|
    && c.payload == sha(PayloadIn(call))
  }

  predicate StillAccepted(store: Store, a: Accept) {
    LoadCurrent(store).Done? && a.id in Accepted(store) && Accepted(store)[a.id] == a.sequence
  }

  lemma ArgumentsHaveId(call: CommitCall)
    requires ArgumentsOk(call)
    ensures AcceptIn(call).id != []
  {
    assert C.DEFAULT_ID[0] == 0x82;
    if call.AppCall? {
      A.AppIdLength(call.app.accept.id);
    }
  }

  /**
   * With a commit recorded, a catalog or application call answers 0 and the recorded generation exactly when it repeats
   * that commit and its sequence is still the accepted one, and 9 otherwise; either way it changes nothing.
   */
  lemma ReplayAnswerIff(sha: Sha, ta: Ta, i: nat, call: CommitCall, c: CommitRecord)
    requires IsOpen(ta, i) && RecordedIn(ta, i) == Some(c) && !call.AcceptCall? && ArgumentsOk(call)
    ensures CommitHostcall(sha, ta, i, true, call)
            == if Repeats(sha, call, c) && StillAccepted(ta.store, AcceptIn(call)) then Called(ta, 0, c.generation)
               else Called(ta, 9, 0)
  {
    ArgumentsHaveId(call);
    hide LoadCurrent, AsMap, ClearPending, Attempt, A.IsAppId;
  }

  // ----- the first commit -----

  /** No commit is recorded, or the call is a plain acceptance, which never replays. */
  predicate Fresh(ta: Ta, i: nat, call: CommitCall)
    requires IsOpen(ta, i)
  {
    call.AcceptCall? || RecordedIn(ta, i).None?
  }

  /** What is left of the session after a storage commit: no transcript, and the record of a successful one. */
  predicate Settled(sha: Sha, before: Session, after: Session, call: CommitCall, status: nat, generation: u64) {
    after.pending.None?
    && if call.AcceptCall? || before.live.None? || status != 0 then after.live == before.live
       else after.live.Some? && after.live.value.request == before.live.value.request
            && after.live.value.history == before.live.value.history
            && after.live.value.commit.Some? && after.live.value.commit.value.generation == generation
            && Repeats(sha, call, after.live.value.commit.value)
  }

  /**
   * Without a transcript the answer is 9 and nothing happens; under one with another digest the answer is 9 and the
   * transcript is gone; under its own the call reaches storage, and answers 0 exactly if that succeeds and is noted.
   */
  lemma GateAnswers(sha: Sha, ta: Ta, i: nat, verified: bool, call: CommitCall)
    requires IsOpen(ta, i) && ArgumentsOk(call) && Allowed(verified, call) && Fresh(ta, i, call)
    ensures var r := CommitHostcall(sha, ta, i, verified, call); var stored := Storing(sha, ta.store, call);
            if !HoldsHttp(ta.sessions[i]) then r == Called(ta, 9, 0)
            else if At(ta, i).pending.value.bodySha != QueryDigest(call) then r == Called(ClearPending(ta, i), 9, 0)
            else r.ta.store == stored.store && r.status == StatusOf(stored.result, call.noted)
                 && (r.status == 0 <==> stored.result.Done? && call.noted.None?)
                 && r.generation == (if stored.result.Done? then stored.result.value else 0)
                 && r.ta.log == ta.log + [Attempted(i, QueryDigest(call))]
                 && At(r.ta, i).pending.None?
                 && (r.status != 0 || call.AcceptCall? || At(ta, i).live.None? ==> At(r.ta, i).live == At(ta, i).live)
  {
    hide Storing, A.IsAppId;
  }

  /** What storage success means, whichever kind of commit it was. */
  lemma StoredMeans(sha: Sha, store: Store, call: CommitCall)
    requires Storing(sha, store, call).result.Done?
    ensures var a, r := AcceptIn(call), Storing(sha, store, call);
            && LoadCurrent(store).Done? && LoadCurrent(r.store).Done?
            && LoadCurrent(r.store).value.generation == r.result.value == a.expected + 1
            && Accepted(r.store) == Accepted(store)[a.id := a.sequence]
            && LoadCurrent(r.store).value.digest == Some(a.digest)
            && (!call.AcceptCall? ==> sha(PayloadIn(call)) == ClaimedIn(call))
  {
    hide LoadCurrent, Commit, CommitCatalog, CommitApp, AsMap, Upsert, AdmitsCatalog, AdmitsApp, Fits, Raises;
    UnloadableFails(sha, store, call);
    var a, cur := AcceptIn(call), LoadCurrent(store).value;
    UpsertMap(cur.components, AcceptanceRecord.Component(a.id, a.sequence));
    match call
    case AcceptCall(a, publish, _) => CommitAnswerIff(store, a, publish);
    case CatalogCall(q, staging, publish, _) =>
      CatalogAnswerIff(sha, store, q, staging, publish);
      StagedIsClaimed(sha, store, q);
    case AppCall(q, staging, publish, _) =>
      AppAnswerIff(sha, store, q, staging, publish);
      StagedAppIsClaimed(sha, store, q);
  }

  lemma UnloadableFails(sha: Sha, store: Store, call: CommitCall)
    ensures LoadCurrent(store).Err? ==> Storing(sha, store, call).result.Err?
  {
    hide LoadCurrent, A.IsAppId;
  }

  /** A call that answers 0 for the first time returns the generation that loads, and records exactly itself. */
  lemma SuccessIsRecorded(sha: Sha, ta: Ta, i: nat, verified: bool, call: CommitCall)
    requires IsOpen(ta, i) && Fresh(ta, i, call) && CommitHostcall(sha, ta, i, verified, call).status == 0
    ensures var r := CommitHostcall(sha, ta, i, verified, call); var a := AcceptIn(call);
            && ArgumentsOk(call) && Allowed(verified, call) && LoadCurrent(r.ta.store).Done?
            && LoadCurrent(r.ta.store).value.generation == r.generation == a.expected + 1
            && StillAccepted(r.ta.store, a) && LoadCurrent(r.ta.store).value.digest == Some(a.digest)
            && Settled(sha, At(ta, i), At(r.ta, i), call, 0, r.generation)
  {
    hide LoadCurrent, CommitHostcall, Storing, ClearPending, HoldsHttp, StatusOf, AsMap, ArgumentsOk, Repeats;
    if !ArgumentsOk(call) || !Allowed(verified, call) {
      RefusedCalls(sha, ta, i, verified, call);
    } else {
      GateAnswers(sha, ta, i, verified, call);
      StoredMeans(sha, ta.store, call);
      if !call.AcceptCall? && At(ta, i).live.Some? {
        RecordIsCall(sha, ta, i, verified, call);
      }
    }
  }

  lemma RecordIsCall(sha: Sha, ta: Ta, i: nat, verified: bool, call: CommitCall)
    requires IsOpen(ta, i) && ArgumentsOk(call) && Allowed(verified, call) && Fresh(ta, i, call)
    requires CommitHostcall(sha, ta, i, verified, call).status == 0 && !call.AcceptCall? && At(ta, i).live.Some?
    requires sha(PayloadIn(call)) == ClaimedIn(call)
    ensures var r := CommitHostcall(sha, ta, i, verified, call);
            Settled(sha, At(ta, i), At(r.ta, i), call, 0, r.generation)
  {
    hide Storing, A.IsAppId;
  }

  /**
   * A catalog or application commit that answered 0 in a live request, called again with the same arguments, answers 0
   * with the same generation and leaves everything alone.
   */
  lemma RepeatedCallRepeatsAnswer(sha: Sha, ta: Ta, i: nat, verified: bool, call: CommitCall)
    requires IsOpen(ta, i) && At(ta, i).live.Some? && RecordedIn(ta, i).None? && !call.AcceptCall?
    requires CommitHostcall(sha, ta, i, verified, call).status == 0
    ensures var r := CommitHostcall(sha, ta, i, verified, call);
            CommitHostcall(sha, r.ta, i, verified, call) == Called(r.ta, 0, r.generation)
  {
    hide LoadCurrent, CommitHostcall, AsMap, ArgumentsOk, Repeats, StillAccepted;
    SuccessIsRecorded(sha, ta, i, verified, call);
    var r := CommitHostcall(sha, ta, i, verified, call);
    ReplayAnswerIff(sha, r.ta, i, call, RecordedIn(r.ta, i).value);
  }

  /**
   * A run that is about to make such a commit is the same run whether it starts before the commit or, with the commit
   * already recorded, after it: same continuation, same outcome, same final state.
   */
  lemma CommitIsIdempotent(w: World, ta: Ta, i: nat, rq: Request, ctx: Context, budget: nat)
    requires IsOpen(ta, i) && At(ta, i).live.Some? && RecordedIn(ta, i).None? && budget > 0
    requires var a := w.agent(rq)(ctx.trace);
             a.Publish? && !a.commit.AcceptCall? && CommitHostcall(w.sha, ta, i, rq.verified, a.commit).status == 0
    ensures var after := CommitHostcall(w.sha, ta, i, rq.verified, w.agent(rq)(ctx.trace).commit).ta;
            Exec(w, after, i, rq, ctx, budget) == Exec(w, ta, i, rq, ctx, budget)
  {
    hide CommitHostcall, AnswerIo;
    RepeatedCallRepeatsAnswer(w.sha, ta, i, rq.verified, w.agent(rq)(ctx.trace).commit);
  }

  /** An agent that makes one commit call and reports its answer. */
  function Reporting(call: CommitCall, t: seq<Answer>): Action {
    if t == [] then Publish(call)
    else if t[0].CommitAnswer? then Finish(true, [t[0].status % 256] + BigEndian(t[0].generation, 8))
    else Finish(false, [])
  }

  /** The agent sees what the call answered, and the session is what the call left. */
  lemma AgentSeesTheAnswer(w: World, ta: Ta, i: nat, rq: Request, call: CommitCall)
    requires IsOpen(ta, i) && w.budget >= 2 && w.agent(rq) == ((t: seq<Answer>) => Reporting(call, t))
    ensures var r := CommitHostcall(w.sha, ta, i, rq.verified, call);
            Exec(w, ta, i, rq, START, w.budget) == (r.ta, Ended(true, [r.status % 256] + BigEndian(r.generation, 8), None))
  {
    hide CommitHostcall, BigEndian;
    var r := CommitHostcall(w.sha, ta, i, rq.verified, call);
    var next := START.(trace := [] + [CommitAnswer(r.status, r.generation)]);
    assert w.agent(rq)([]) == Publish(call);
    assert Exec(w, ta, i, rq, START, w.budget) == Exec(w, r.ta, i, rq, next, w.budget - 1);
    assert w.agent(rq)(next.trace) == Finish(true, [r.status % 256] + BigEndian(r.generation, 8));
  }

  // ----- the numbers -----

  /** The numbers an agent sees, told apart by what went wrong. */
  lemma StatusMeaning(r: Result<u64>, noted: Option<Code>)
    ensures var failure := if r.Err? then Some(r.code) else noted; var n := StatusOf(r, noted);
            && (n == 0 <==> failure.None?)
            && (n == 1 <==> failure == Some(BadParameters))
            && (n == 2 <==> failure == Some(ExcessData) || failure == Some(Overflow))
            && (n == 3 <==> failure == Some(ItemNotFound))
            && (n == 4 <==> failure.Some? && failure.value in {BadFormat, CorruptObject, NotSupported, Security})
            && (n == 9 <==> failure == Some(AccessConflict))
            && n in {0, 1, 2, 3, 4, 7, 9}
  {
  }

  /** The commit expects another generation, does not raise its component, or is an acceptance of a consumed response. */
  predicate Conflicts(cur: Current, call: CommitCall) {
    var a := AcceptIn(call);
    cur.generation != a.expected || (a.id in AsMap(cur.components) && a.sequence <= AsMap(cur.components)[a.id])
    || (call.AcceptCall? && cur.digest == Some(a.digest))
  }

  /** Nothing about the call itself stands in its way. */
  predicate Posed(sha: Sha, call: CommitCall) {
    var a := AcceptIn(call);
    ArgumentsOk(call) && a.sequence > 0 && a.expected < U64_MAX && |a.id| <= 4096
    && (!call.AcceptCall? ==> sha(PayloadIn(call)) == ClaimedIn(call))
  }

  /** Under its own transcript, a conflicting call answers 9 and leaves storage alone. */
  lemma ConflictAnswersNine(sha: Sha, ta: Ta, i: nat, verified: bool, call: CommitCall)
    requires IsOpen(ta, i) && Posed(sha, call) && Allowed(verified, call) && Fresh(ta, i, call)
    requires HoldsHttp(ta.sessions[i]) && At(ta, i).pending.value.bodySha == QueryDigest(call)
    requires LoadCurrent(ta.store).Done? && Conflicts(LoadCurrent(ta.store).value, call)
    ensures var r := CommitHostcall(sha, ta, i, verified, call); r.status == 9 && r.generation == 0 && r.ta.store == ta.store
  {
    hide LoadCurrent, CommitHostcall, Storing, ClearPending, Conflicts;
    GateAnswers(sha, ta, i, verified, call);
    ConflictIsRefused(sha, ta.store, call);
  }

  lemma ConflictIsRefused(sha: Sha, store: Store, call: CommitCall)
    requires Posed(sha, call) && LoadCurrent(store).Done? && Conflicts(LoadCurrent(store).value, call)
    ensures Storing(sha, store, call) == Reply(store, Err(AccessConflict))
  {
    ArgumentsHaveId(call);
    hide LoadCurrent, Commit, CommitCatalog, CommitApp, A.IsAppId, AsMap;
    match call
    case AcceptCall(a, publish, _) => CommitRefusals(store, a, publish);
    case CatalogCall(q, staging, publish, _) => CatalogRefusals(sha, store, q, staging, publish);
    case AppCall(q, staging, publish, _) => AppRefusals(sha, store, q, staging, publish);
  }

  // ----- host I/O calls -----

  /** Target and body fit the buffers of the call. */
  predicate WithinLimits(call: IoCall) {
    if call.kind == HttpPost then |call.target| < 128 && |call.body| <= 32768 else |call.target| <= 128 && |call.body| <= 64
  }

  /** The next recorded answer is one to a call of this kind. */
  predicate IsNext(history: seq<Recorded>, index: nat, call: IoCall) {
    index < |history| && history[index].kind == call.kind
  }

  /**
   * A call is handed the next recorded answer, and moves on, exactly when that is of its kind and fits; with none of its
   * kind next it suspends exactly when it is within its limits. A recorded answer takes precedence over the limits.
   */
  lemma IoAnswerIff(history: seq<Recorded>, index: nat, call: IoCall)
    ensures var (reply, next) := AnswerIo(history, index, call);
            && (reply.Payload? <==> IsNext(history, index, call) && |history[index].payload| <= call.capacity)
            && (reply.Payload? ==> reply.payload == history[index].payload && next == index + 1)
            && (reply.TooSmall? <==> IsNext(history, index, call) && |history[index].payload| > call.capacity)
            && (reply.MustSuspend? <==> !IsNext(history, index, call) && WithinLimits(call))
            && (!reply.Payload? ==> next == index)
  {
  }

  /** A call told that its buffer is too small, made again with the room it was told of, gets the answer. */
  lemma RetryIsAnswered(history: seq<Recorded>, index: nat, call: IoCall, capacity: nat)
    requires var reply := AnswerIo(history, index, call).0; reply.TooSmall? && capacity >= reply.needed
    ensures index < |history|
    ensures var next := AnswerIo(history, index, call).1;
            AnswerIo(history, next, call.(capacity := capacity)) == (Payload(history[index].payload), index + 1)
  {
  }
}

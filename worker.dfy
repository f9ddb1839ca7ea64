/** The job bridge between the game thread and the database worker
    (src/core/worker.rs): the jobs and their results, the two loops that
    collect a cursor, the routing of a completed job, and the shared state
    (the pending-callback counter, the hook flag and the two queues) as one
    object whose methods are the atomic steps. */
module Worker {
  import opened Wrappers
  import opened Bson

  /** A registry reference to a Lua callback (`luaL_ref`). */
  type Handle = int

  /** The driver's collection handle, abstracted to an identity. */
  type CollectionId = nat

  type u64 = x: int | 0 <= x < 0x1_0000_0000_0000_0000

  /** `usize` arithmetic wraps modulo 2^64. */
  const UsizeModulus: int := 0x1_0000_0000_0000_0000

  const SubmitErrorPrefix: string := "Failed to submit job: "
  /** The debug text of the channel's send error. */
  const SendErrorText: string := "SendError { .. }"

  datatype Operation =
    | InsertOne(collection: CollectionId, document: Doc)
    | InsertMany(collection: CollectionId, documents: seq<Doc>)
    | Find(collection: CollectionId, filter: Doc, limit: Option<i64>)
    | FindOne(collection: CollectionId, filter: Doc)
    | UpdateOne(collection: CollectionId, filter: Doc, update: Doc, upsert: bool)
    | UpdateMany(collection: CollectionId, filter: Doc, update: Doc, upsert: bool)
    | DeleteOne(collection: CollectionId, filter: Doc)
    | DeleteMany(collection: CollectionId, filter: Doc)
    | CountDocuments(collection: CollectionId, filter: Doc)
    | Aggregate(collection: CollectionId, pipeline: seq<Doc>)

  /** What a job produced; every variant carries the driver's error text on
      failure. */
  datatype JobResult =
    | InsertedOne(id: Result<string, string>)
    | InsertedMany(ids: Result<seq<string>, string>)
    | Found(docs: Result<seq<Doc>, string>)
    | FoundOne(doc: Result<Option<Doc>, string>)
    | UpdatedOne(count: Result<i64, string>)
    | UpdatedMany(count: Result<i64, string>)
    | DeletedOne(count: Result<i64, string>)
    | DeletedMany(count: Result<i64, string>)
    | Counted(count: Result<i64, string>)
    | Aggregated(docs: Result<seq<Doc>, string>)

  /** The result variant that belongs to each operation variant. */
  predicate SameKind(op: Operation, r: JobResult) {
    match op
    case InsertOne(_, _) => r.InsertedOne?
    case InsertMany(_, _) => r.InsertedMany?
    case Find(_, _, _) => r.Found?
    case FindOne(_, _) => r.FoundOne?
    case UpdateOne(_, _, _, _) => r.UpdatedOne?
    case UpdateMany(_, _, _, _) => r.UpdatedMany?
    case DeleteOne(_, _) => r.DeletedOne?
    case DeleteMany(_, _) => r.DeletedMany?
    case CountDocuments(_, _) => r.Counted?
    case Aggregate(_, _) => r.Aggregated?
  }

  datatype Job = Job(operation: Operation, callback: Option<Handle>, result: Option<JobResult>)

  // ----- what the driver answers

  /** One step of a cursor: a document, or the error `try_next` reports. */
  datatype Fetch = Item(doc: Doc) | StreamError(message: string)

  /** The driver's answer to an operation, with its error text on failure.
      A cursor answer is the error of opening it or the steps it yields. */
  datatype Reply =
    | IdReply(id: Result<string, string>)
    | IdsReply(ids: Result<seq<string>, string>)
    | CursorReply(cursor: Result<seq<Fetch>, string>)
    | DocumentReply(doc: Result<Option<Doc>, string>)
    | CountReply(count: Result<u64, string>)

  /** The kind of answer the driver gives to each operation. */
  predicate ReplyFits(op: Operation, reply: Reply) {
    match op
    case InsertOne(_, _) => reply.IdReply?
    case InsertMany(_, _) => reply.IdsReply?
    case Find(_, _, _) => reply.CursorReply?
    case FindOne(_, _) => reply.DocumentReply?
    case Aggregate(_, _) => reply.CursorReply?
    case _ => reply.CountReply?
  }

  // ----- collecting a cursor

  predicate NoError(s: seq<Fetch>) {
    forall k :: 0 <= k < |s| ==> s[k].Item?
  }

  /** The documents of a cursor, in order. */
  function Docs(s: seq<Fetch>): (d: seq<Doc>)
    ensures |d| <= |s|
    ensures NoError(s) ==> |d| == |s|
  {
    if s == [] then []
    else Docs(s[..|s| - 1]) + (if s[|s| - 1].Item? then [s[|s| - 1].doc] else [])
  }

  /** The position of the first failing step, or the cursor's length. */
  function FirstError(s: seq<Fetch>): (e: nat)
    ensures e <= |s|
    ensures NoError(s[..e])
    ensures e < |s| ==> s[e].StreamError?
  {
    if s == [] then 0
    else if s[0].StreamError? then 0
    else
      var e := FirstError(s[1..]);
      assert s[..e + 1] == [s[0]] + s[1..][..e];
      e + 1
  }

  /** How many documents a `Find` limit asks for: the loop tests the limit
      only after a push, so a limit below 1 still takes one. */
  function Wanted(limit: i64): (w: nat)
    ensures w >= 1 && (limit >= 1 ==> w == limit)
  {
    if limit < 1 then 1 else limit
  }

  /** What a cursor collects to: the first `Wanted(limit)` documents when
      that many come before any error; otherwise the first error, if there
      is one; otherwise all the documents. */
  function Collected(cursor: seq<Fetch>, limit: Option<i64>): Result<seq<Doc>, string> {
    var e := FirstError(cursor);
    var ok := Docs(cursor[..e]);
    if limit.Some? && |ok| >= Wanted(limit.value) then Success(ok[..Wanted(limit.value)])
    else if e < |cursor| then Failure(cursor[e].message)
    else Success(ok)
  }

  /** What a collection can be: a prefix of the cursor's documents, no
      longer than the limit asks for, or the message of the cursor's first
      failing step. */
  lemma CollectedBounds(cursor: seq<Fetch>, limit: Option<i64>)
    ensures var r := Collected(cursor, limit);
      (r.Success? ==> r.value <= Docs(cursor)) &&
      (r.Success? && limit.Some? ==> |r.value| <= Wanted(limit.value)) &&
      (r.Failure? ==> FirstError(cursor) < |cursor| && r.error == cursor[FirstError(cursor)].message)
  {
    DocsPrefix(cursor, FirstError(cursor), |cursor|);
    assert cursor[..|cursor|] == cursor;
  }

  lemma DocsSnoc(s: seq<Fetch>, f: Fetch)
    ensures Docs(s + [f]) == Docs(s) + (if f.Item? then [f.doc] else [])
  {
    assert (s + [f])[..|s|] == s;
  }

  /** The documents of a prefix are a prefix of the documents. */
  lemma {:induction false} DocsPrefix(s: seq<Fetch>, j: nat, k: nat)
    requires j <= k <= |s|
    ensures Docs(s[..j]) <= Docs(s[..k])
    decreases k - j
  {
    if j < k {
      DocsPrefix(s, j, k - 1);
      assert s[..k] == s[..k - 1] + [s[k - 1]];
      DocsSnoc(s[..k - 1], s[k - 1]);
    }
  }

  /** No error in the first k steps puts the first error at k or later. */
  lemma FirstErrorAfter(s: seq<Fetch>, k: nat)
    requires k <= |s| && NoError(s[..k])
    ensures FirstError(s) >= k
  {
    forall j | 0 <= j < k ensures s[j].Item? {
      assert s[..k][j] == s[j];
    }
  }

  /** Without a failing step, the first error sits at the end. */
  lemma FullCursor(cursor: seq<Fetch>)
    requires NoError(cursor)
    ensures FirstError(cursor) == |cursor|
    ensures Docs(cursor[..FirstError(cursor)]) == Docs(cursor)
    ensures |Docs(cursor)| == |cursor|
  {
    assert cursor[..|cursor|] == cursor;
    FirstErrorAfter(cursor, |cursor|);
  }

  /** Once the first k steps hold the wanted number of documents, that is
      the result, whatever follows. */
  lemma LimitReached(cursor: seq<Fetch>, limit: i64, k: nat)
    requires k <= |cursor| && NoError(cursor[..k]) && |Docs(cursor[..k])| == Wanted(limit)
    ensures Collected(cursor, Some(limit)) == Success(Docs(cursor[..k]))
  {
    FirstErrorAfter(cursor, k);
    var e := FirstError(cursor);
    DocsPrefix(cursor, k, e);
    var ok := Docs(cursor[..e]);
    assert ok[..Wanted(limit)] == Docs(cursor[..k]);
  }

  /** A cursor that ends before the limit is reached yields all of it. */
  lemma Exhausted(cursor: seq<Fetch>, limit: Option<i64>)
    requires NoError(cursor)
    requires limit.Some? ==> |Docs(cursor)| < Wanted(limit.value)
    ensures Collected(cursor, limit) == Success(Docs(cursor))
  {
    FullCursor(cursor);
  }

  /** The `Find` loop: documents are pushed and counted until the cursor
      ends, a step fails, or (with a limit) the count reaches the limit. */
  method CollectFind(cursor: seq<Fetch>, limit: Option<i64>) returns (r: Result<seq<Doc>, string>)
    ensures r == Collected(cursor, limit)
  {
    var documents: seq<Doc> := [];
    var count := 0;
    var i := 0;
    while i < |cursor|
      invariant 0 <= i <= |cursor|
      invariant NoError(cursor[..i])
      invariant documents == Docs(cursor[..i]) && count == |documents|
      invariant limit.Some? ==> count < Wanted(limit.value)
    {
      assert cursor[..i + 1] == cursor[..i] + [cursor[i]];
      DocsSnoc(cursor[..i], cursor[i]);
      match cursor[i]
      case StreamError(message) =>
        ErrorDropsDocuments(cursor, limit, i);
        return Failure(message);
      case Item(doc) =>
        documents := documents + [doc];
        count := count + 1;
        if limit.Some? && count >= limit.value {
          LimitReached(cursor, limit.value, i + 1);
          return Success(documents);
        }
      i := i + 1;
    }
    assert cursor[..i] == cursor;
    Exhausted(cursor, limit);
    return Success(documents);
  }

  /** The `Aggregate` loop: every document until the cursor ends or a step
      fails. */
  method CollectAll(cursor: seq<Fetch>) returns (r: Result<seq<Doc>, string>)
    ensures r == Collected(cursor, None)
  {
    var documents: seq<Doc> := [];
    var i := 0;
    while i < |cursor|
      invariant 0 <= i <= |cursor|
      invariant NoError(cursor[..i])
      invariant documents == Docs(cursor[..i])
    {
      assert cursor[..i + 1] == cursor[..i] + [cursor[i]];
      DocsSnoc(cursor[..i], cursor[i]);
      match cursor[i]
      case StreamError(message) =>
        ErrorDropsDocuments(cursor, None, i);
        return Failure(message);
      case Item(doc) =>
        documents := documents + [doc];
      i := i + 1;
    }
    assert cursor[..i] == cursor;
    Exhausted(cursor, None);
    return Success(documents);
  }

  /** With a limit and no failing step, `Find` returns the first
      min(n, max(limit, 1)) documents of the cursor, in order. */
  lemma FindWithLimit(cursor: seq<Fetch>, limit: i64)
    requires NoError(cursor)
    ensures var w := if |cursor| < Wanted(limit) then |cursor| else Wanted(limit);
      Collected(cursor, Some(limit)) == Success(Docs(cursor)[..w])
  {
    FullCursor(cursor);
    var ok := Docs(cursor);
    var w := Wanted(limit);
    if |ok| >= w {
      assert Collected(cursor, Some(limit)) == Success(ok[..w]);
    } else {
      assert ok[..|cursor|] == ok;
      assert Collected(cursor, Some(limit)) == Success(ok);
    }
  }

  /** A limit of zero or below still yields the first document. */
  lemma NonPositiveLimitTakesOne(d: Doc, rest: seq<Fetch>, limit: i64)
    requires limit <= 0
    ensures Collected([Item(d)] + rest, Some(limit)) == Success([d])
  {
    var s := [Item(d)] + rest;
    assert s[..1] == [] + [Item(d)];
    DocsSnoc([], Item(d));
    assert Docs(s[..1]) == [d];
    assert NoError(s[..1]);
    LimitReached(s, limit, 1);
  }

  /** A failing step before the wanted documents are in makes the whole
      result that error; the documents already collected are dropped. */
  lemma ErrorDropsDocuments(cursor: seq<Fetch>, limit: Option<i64>, k: nat)
    requires k < |cursor| && NoError(cursor[..k]) && cursor[k].StreamError?
    requires limit.Some? ==> |Docs(cursor[..k])| < Wanted(limit.value)
    ensures Collected(cursor, limit) == Failure(cursor[k].message)
  {
    FirstErrorAfter(cursor, k);
    assert FirstError(cursor) == k;
  }

  // ----- completing a job

  /** `count as i64` from an unsigned 64-bit count: two's-complement
      reinterpretation. */
  function U64AsI64(n: u64): (r: i64)
    ensures n <= I64_MAX ==> r == n
    ensures n > I64_MAX ==> r == n - UsizeModulus
  {
    if n <= I64_MAX then n else n - UsizeModulus
  }

  function CountResult(reply: Reply): Result<i64, string>
    requires reply.CountReply?
  {
    match reply.count
    case Success(n) => Success(U64AsI64(n))
    case Failure(e) => Failure(e)
  }

  function CursorResult(reply: Reply, limit: Option<i64>): Result<seq<Doc>, string>
    requires reply.CursorReply?
  {
    match reply.cursor
    case Success(steps) => Collected(steps, limit)
    case Failure(e) => Failure(e)
  }

  /** The result `process_job` computes from the driver's answer. */
  function Outcome(op: Operation, reply: Reply): (r: JobResult)
    requires ReplyFits(op, reply)
    ensures SameKind(op, r)
  {
    match op
    case InsertOne(_, _) => InsertedOne(reply.id)
    case InsertMany(_, _) => InsertedMany(reply.ids)
    case Find(_, _, limit) => Found(CursorResult(reply, limit))
    case FindOne(_, _) => FoundOne(reply.doc)
    case UpdateOne(_, _, _, _) => UpdatedOne(CountResult(reply))
    case UpdateMany(_, _, _, _) => UpdatedMany(CountResult(reply))
    case DeleteOne(_, _) => DeletedOne(CountResult(reply))
    case DeleteMany(_, _) => DeletedMany(CountResult(reply))
    case CountDocuments(_, _) => Counted(CountResult(reply))
    case Aggregate(_, _) => Aggregated(CursorResult(reply, None))
  }

  /** The dispatch of `process_job`, running the two cursor loops. */
  method Execute(op: Operation, reply: Reply) returns (r: JobResult)
    requires ReplyFits(op, reply)
    ensures r == Outcome(op, reply)
  {
    match op {
      case InsertOne(_, _) => r := InsertedOne(reply.id);
      case InsertMany(_, _) => r := InsertedMany(reply.ids);
      case Find(_, _, limit) =>
        match reply.cursor {
          case Failure(e) => r := Found(Failure(e));
          case Success(steps) =>
            var docs := CollectFind(steps, limit);
            r := Found(docs);
        }
      case FindOne(_, _) => r := FoundOne(reply.doc);
      case UpdateOne(_, _, _, _) => r := UpdatedOne(CountResult(reply));
      case UpdateMany(_, _, _, _) => r := UpdatedMany(CountResult(reply));
      case DeleteOne(_, _) => r := DeletedOne(CountResult(reply));
      case DeleteMany(_, _) => r := DeletedMany(CountResult(reply));
      case CountDocuments(_, _) => r := Counted(CountResult(reply));
      case Aggregate(_, _) =>
        match reply.cursor {
          case Failure(e) => r := Aggregated(Failure(e));
          case Success(steps) =>
            var docs := CollectAll(steps);
            r := Aggregated(docs);
        }
    }
  }

  // ----- the shared state

  /** How many jobs of a queue carry a callback. */
  function CallbackJobs(q: seq<Job>): (n: nat)
    ensures n <= |q|
  {
    if q == [] then 0
    else CallbackJobs(q[..|q| - 1]) + (if q[|q| - 1].callback.Some? then 1 else 0)
  }

  lemma CallbackJobsSnoc(q: seq<Job>, j: Job)
    ensures CallbackJobs(q + [j]) == CallbackJobs(q) + (if j.callback.Some? then 1 else 0)
  {
    assert (q + [j])[..|q|] == q;
  }

  /** Taking job i out of a queue removes its callback from the count. */
  lemma {:induction false} CallbackJobsRemove(q: seq<Job>, i: nat)
    requires i < |q|
    ensures CallbackJobs(q[..i] + q[i + 1..]) + (if q[i].callback.Some? then 1 else 0) == CallbackJobs(q)
    decreases |q|
  {
    var front, last := q[..|q| - 1], q[|q| - 1];
    if i == |q| - 1 {
      assert q[..i] + q[i + 1..] == front;
    } else {
      CallbackJobsRemove(front, i);
      assert q[..i] + q[i + 1..] == (front[..i] + front[i + 1..]) + [last];
      CallbackJobsSnoc(front[..i] + front[i + 1..], last);
    }
  }

  /** No two jobs of q carry the same callback reference. */
  predicate DistinctCallbacks(q: seq<Job>) {
    forall j, k :: 0 <= j < k < |q| && q[j].callback.Some? ==> q[j].callback != q[k].callback
  }

  /** Taking job i out keeps the references distinct, and none of the rest
      carries job i's reference. */
  lemma DistinctRemove(q: seq<Job>, i: nat)
    requires i < |q| && DistinctCallbacks(q)
    ensures DistinctCallbacks(q[..i] + q[i + 1..])
    ensures q[i].callback.Some? ==> forall job :: job in q[..i] + q[i + 1..] ==> job.callback != q[i].callback
  {
    var r := q[..i] + q[i + 1..];
    assert forall k :: 0 <= k < |r| ==> r[k] == if k < i then q[k] else q[k + 1];
  }

  /** Appending a job whose reference, if any, no job of q carries keeps the
      references distinct. */
  lemma DistinctSnoc(q: seq<Job>, job: Job)
    requires DistinctCallbacks(q)
    requires job.callback.Some? ==> forall k :: 0 <= k < |q| ==> q[k].callback != job.callback
    ensures DistinctCallbacks(q + [job])
  {
    var r := q + [job];
    assert forall k :: 0 <= k < |q| ==> r[k] == q[k];
  }

  /** A job ready for its callback: it has one, and its result, of the
      operation's kind. */
  predicate Deliverable(j: Job) {
    j.callback.Some? && j.result.Some? && SameKind(j.operation, j.result.value)
  }

  /** What one `try_recv` on the callback queue gives. */
  datatype Received = Got(job: Job) | Empty | Disconnected

  /** The process-wide state of the bridge: `CALLBACKS_PENDING`,
      `HOOK_REGISTERED`, the jobs submitted and not yet completed (in the
      job channel or running on the worker) and `CALLBACK_QUEUE`. */
  class JobBridge {
    var pending: nat
    var hookRegistered: bool
    var inFlight: seq<Job>
    var callbackQueue: seq<Job>
    /** Callback jobs counted in `pending` that can no longer reach the
        callback queue: their submission or delivery failed, or a poll
        stopped on a disconnected queue after receiving them. */
    ghost var stranded: nat

    /** Every callback the counter counts is in flight, queued, or
        stranded; every queued job is ready for its callback. */
    ghost predicate Valid()
      reads this
    {
      pending == CallbackJobs(inFlight) + |callbackQueue| + stranded &&
      forall k :: 0 <= k < |callbackQueue| ==> Deliverable(callbackQueue[k])
    }

    constructor ()
      ensures Valid()
      ensures pending == 0 && !hookRegistered && inFlight == [] && callbackQueue == []
    {
      pending := 0;
      hookRegistered := false;
      inFlight := [];
      callbackQueue := [];
      stranded := 0;
    }

    /** `submit_job`: a job with a callback is counted first; then the job
        is sent, and the caller learns whether the channel took it. A job
        the channel refuses stays counted. */
    method SubmitJob(job: Job, accepted: bool) returns (r: Result<Unit, string>)
      requires Valid()
      modifies this
      ensures Valid()
      ensures pending == old(pending) + (if job.callback.Some? then 1 else 0)
      ensures r.Success? <==> accepted
      ensures r.Failure? ==> r.error == SubmitErrorPrefix + SendErrorText
      ensures inFlight == if accepted then old(inFlight) + [job] else old(inFlight)
      ensures stranded == if accepted || job.callback.None? then old(stranded) else old(stranded) + 1
      ensures callbackQueue == old(callbackQueue) && hookRegistered == old(hookRegistered)
    {
      if job.callback.Some? {
        pending := pending + 1;
      }
      if accepted {
        CallbackJobsSnoc(inFlight, job);
        inFlight := inFlight + [job];
        r := Success(Unit);
      } else {
        if job.callback.Some? {
          stranded := stranded + 1;
        }
        r := Failure(SubmitErrorPrefix + SendErrorText);
      }
    }

    /** The worker finishes the in-flight job i (jobs run concurrently, so
        any may finish next) with the driver's answer `reply`. A job with a
        callback gets its result and is sent to the callback queue, which
        succeeds when `delivered`; a job without one is dropped. */
    method ProcessJob(i: nat, reply: Reply, delivered: bool)
      requires Valid() && i < |inFlight| && ReplyFits(inFlight[i].operation, reply)
      modifies this
      ensures Valid()
      ensures inFlight == old(inFlight[..i] + inFlight[i + 1..])
      ensures var job := old(inFlight[i]);
        callbackQueue == if job.callback.Some? && delivered
                         then old(callbackQueue) + [job.(result := Some(Outcome(job.operation, reply)))]
                         else old(callbackQueue)
      ensures pending == old(pending) && hookRegistered == old(hookRegistered)
    {
      var job := inFlight[i];
      var result := Execute(job.operation, reply);
      CallbackJobsRemove(inFlight, i);
      inFlight := inFlight[..i] + inFlight[i + 1..];
      if job.callback.Some? {
        job := job.(result := Some(result));
        if delivered {
          callbackQueue := callbackQueue + [job];
        } else {
          stranded := stranded + 1;
        }
      }
    }

    /** `should_register_hook`: test-and-set of the hook flag. */
    method ShouldRegisterHook() returns (b: bool)
      modifies this`hookRegistered
      ensures b == !old(hookRegistered) && hookRegistered
    {
      b := !hookRegistered;
      hookRegistered := true;
    }

    /** `mark_hook_unregistered`. */
    method MarkHookUnregistered()
      modifies this`hookRegistered
      ensures !hookRegistered
    {
      hookRegistered := false;
    }

    /** `get_callbacks_pending`. */
    method GetCallbacksPending() returns (n: nat)
      ensures n == pending
    {
      n := pending;
    }

    /** `decrease_callbacks_pending`: `fetch_sub` on a usize, which wraps
        below zero. */
    method DecreaseCallbacksPending(count: nat)
      modifies this`pending
      ensures count <= old(pending) ==> pending == old(pending) - count
      ensures count > old(pending) ==> pending == (old(pending) - count) % UsizeModulus
    {
      if count <= pending {
        pending := pending - count;
      } else {
        pending := (pending - count) % UsizeModulus;
      }
    }

    /** One `try_recv` on the callback queue: the oldest job while there is
        one; once it is empty, `Disconnected` when every sender is gone and
        `Empty` otherwise. */
    method TryRecv(sendersGone: bool) returns (m: Received)
      modifies this`callbackQueue
      ensures old(callbackQueue) != [] ==> m == Got(old(callbackQueue)[0]) && callbackQueue == old(callbackQueue)[1..]
      ensures old(callbackQueue) == [] ==> m == (if sendersGone then Disconnected else Empty) && callbackQueue == []
    {
      if callbackQueue != [] {
        m := Got(callbackQueue[0]);
        callbackQueue := callbackQueue[1..];
      } else if sendersGone {
        m := Disconnected;
      } else {
        m := Empty;
      }
    }
  }

  /** The test-and-set answers true exactly once until the flag is cleared:
      after a clear, the first call answers true and the second false; after
      another clear, the next call answers true again. */
  method HookFlagProtocol(b: JobBridge) returns (first: bool, second: bool, third: bool)
    modifies b`hookRegistered
    ensures first && !second && third
    ensures b.hookRegistered
  {
    b.MarkHookUnregistered();
    first := b.ShouldRegisterHook();
    second := b.ShouldRegisterHook();
    b.MarkHookUnregistered();
    third := b.ShouldRegisterHook();
  }
}

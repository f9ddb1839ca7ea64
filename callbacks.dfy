/** The game-thread side of the bridge (src/api/callbacks.rs): turning a
    job result into the two callback arguments, the `Think` hook that drains
    the callback queue, and installing and removing that hook. */
module Callbacks {
  import opened Wrappers
  import opened Bson
  import opened Lua
  import opened Conversion
  import opened Worker
  import opened Host

  const NoResultMessage: string := "No result"

  // ----- the callback arguments

  /** A new table holding vs[i] under the number i + 1 (`lua_newtable`
      followed by `lua_rawseti` for each element). */
  function ListTable(vs: seq<LuaValue>): (t: LuaValue)
    ensures t.Table? && |t.entries| == |vs|
  {
    Table(seq(|vs|, i requires 0 <= i < |vs| => Entry(Num(i + 1), vs[i])))
  }

  /** Reading a list table: element k - 1 under key k, nothing elsewhere. */
  lemma ListTableGet(vs: seq<LuaValue>, k: int)
    ensures Get(ListTable(vs), Num(k)) == if 1 <= k <= |vs| then vs[k - 1] else Nil
  {
    var es := ListTable(vs).entries;
    var j := KeyPosition(es, Num(k));
    assert 0 <= j ==> es[j].key == Num(j + 1);
    if 1 <= k <= |vs| {
      assert es[k - 1].key == Num(k);
    }
  }

  /** A list of non-nil values has its own length. */
  lemma ListTableLength(vs: seq<LuaValue>)
    requires forall i :: 0 <= i < |vs| ==> vs[i] != Nil
    ensures Length(ListTable(vs)) == |vs|
  {
    forall k | 1 <= k <= |vs| ensures Get(ListTable(vs), Num(k)) != Nil {
      ListTableGet(vs, k);
    }
    ListTableGet(vs, |vs| + 1);
    LengthUnique(ListTable(vs), |vs|);
  }

  function Strings(ss: seq<string>): (vs: seq<LuaValue>)
    ensures |vs| == |ss|
  {
    seq(|ss|, i requires 0 <= i < |ss| => Str(ss[i]))
  }

  function Tables(docs: seq<Doc>): (vs: seq<LuaValue>)
    ensures |vs| == |docs|
  {
    seq(|docs|, i requires 0 <= i < |docs| => DocToLua(docs[i]))
  }

  /** The driver's error text, when the job failed. */
  function ErrorOf(r: JobResult): Option<string> {
    match r
    case InsertedOne(x) => if x.Failure? then Some(x.error) else None
    case InsertedMany(x) => if x.Failure? then Some(x.error) else None
    case Found(x) => if x.Failure? then Some(x.error) else None
    case FoundOne(x) => if x.Failure? then Some(x.error) else None
    case UpdatedOne(x) => if x.Failure? then Some(x.error) else None
    case UpdatedMany(x) => if x.Failure? then Some(x.error) else None
    case DeletedOne(x) => if x.Failure? then Some(x.error) else None
    case DeletedMany(x) => if x.Failure? then Some(x.error) else None
    case Counted(x) => if x.Failure? then Some(x.error) else None
    case Aggregated(x) => if x.Failure? then Some(x.error) else None
  }

  /** `push_job_result`: the (error, value) pair a callback receives. A
      failure gives the error text and nil; a success gives nil and the
      value, which is nil only for a `find_one` that matched nothing. */
  function PushJobResult(r: JobResult): (args: (LuaValue, LuaValue))
    ensures ErrorOf(r).Some? ==> args == (Str(ErrorOf(r).value), Nil)
    ensures ErrorOf(r).None? ==> args.0 == Nil
    ensures ErrorOf(r).None? && args.1 == Nil ==> r == FoundOne(Success(None))
    ensures r.InsertedOne? && r.id.Success? ==> args == (Nil, Str(r.id.value))
    ensures r.InsertedMany? && r.ids.Success? ==> args == (Nil, ListTable(Strings(r.ids.value)))
    ensures (r.Found? || r.Aggregated?) && r.docs.Success? ==> args == (Nil, ListTable(Tables(r.docs.value)))
    ensures r.FoundOne? && r.doc.Success? && r.doc.value.Some? ==> args == (Nil, DocToLua(r.doc.value.value))
    ensures (r.UpdatedOne? || r.UpdatedMany? || r.DeletedOne? || r.DeletedMany? || r.Counted?) && r.count.Success? ==>
      args == (Nil, Num(r.count.value))
  {
    match r
    case InsertedOne(x) => if x.Failure? then (Str(x.error), Nil) else (Nil, Str(x.value))
    case InsertedMany(x) => if x.Failure? then (Str(x.error), Nil) else (Nil, ListTable(Strings(x.value)))
    case Found(x) => if x.Failure? then (Str(x.error), Nil) else (Nil, ListTable(Tables(x.value)))
    case FoundOne(x) =>
      if x.Failure? then (Str(x.error), Nil)
      else if x.value.Some? then (Nil, DocToLua(x.value.value))
      else (Nil, Nil)
    case UpdatedOne(x) => if x.Failure? then (Str(x.error), Nil) else (Nil, Num(x.value))
    case UpdatedMany(x) => if x.Failure? then (Str(x.error), Nil) else (Nil, Num(x.value))
    case DeletedOne(x) => if x.Failure? then (Str(x.error), Nil) else (Nil, Num(x.value))
    case DeletedMany(x) => if x.Failure? then (Str(x.error), Nil) else (Nil, Num(x.value))
    case Counted(x) => if x.Failure? then (Str(x.error), Nil) else (Nil, Num(x.value))
    case Aggregated(x) => if x.Failure? then (Str(x.error), Nil) else (Nil, ListTable(Tables(x.value)))
  }

  /** A list of documents as Lua tables, one per document, in order. */
  lemma TablesListed(docs: seq<Doc>)
    ensures var list := ListTable(Tables(docs));
      Length(list) == |docs| && forall k :: 1 <= k <= |docs| ==> Get(list, Num(k)) == DocToLua(docs[k - 1])
  {
    var vs := Tables(docs);
    ListTableLength(vs);
    forall k | 1 <= k <= |docs| ensures Get(ListTable(vs), Num(k)) == DocToLua(docs[k - 1]) {
      ListTableGet(vs, k);
    }
  }

  /** The documents of a `find` or an `aggregate` reach the callback as a
      list: one table per document, in order, and its length is their
      number. */
  lemma DocumentsListed(r: JobResult)
    requires (r.Found? && r.docs.Success?) || (r.Aggregated? && r.docs.Success?)
    ensures var list := PushJobResult(r).1;
      list.Table? && Length(list) == |r.docs.value| &&
      forall k :: 1 <= k <= |r.docs.value| ==> Get(list, Num(k)) == DocToLua(r.docs.value[k - 1])
  {
    assert PushJobResult(r).1 == ListTable(Tables(r.docs.value));
    TablesListed(r.docs.value);
  }

  /** The ids of an `insert_many` reach the callback as a list of strings. */
  lemma IdsListed(ids: seq<string>)
    ensures var list := PushJobResult(InsertedMany(Success(ids))).1;
      Length(list) == |ids| && forall k :: 1 <= k <= |ids| ==> Get(list, Num(k)) == Str(ids[k - 1])
  {
    var vs := Strings(ids);
    ListTableLength(vs);
    forall k | 1 <= k <= |ids| ensures Get(ListTable(vs), Num(k)) == Str(ids[k - 1]) {
      ListTableGet(vs, k);
    }
  }

  // ----- what a poll does, job by job

  /** The arguments for a received job; a job without a result gets nil and
      "No result". */
  function CallbackArgs(job: Job): (args: (LuaValue, LuaValue))
    ensures job.result.None? ==> args == (Nil, Str(NoResultMessage))
    ensures job.result.Some? && ErrorOf(job.result.value).Some? ==> args == (Str(ErrorOf(job.result.value).value), Nil)
    ensures args.0 != Nil ==> args.0.Str? && args.1 == Nil
    ensures args == (Nil, Nil) <==> job.result == Some(FoundOne(Success(None)))
  {
    if job.result.Some? then PushJobResult(job.result.value) else (Nil, Str(NoResultMessage))
  }

  /** The registry after the handles of the jobs q have been given back. */
  function RegistryAfter(reg: map<Handle, LuaValue>, q: seq<Job>): map<Handle, LuaValue> {
    if q == [] then reg
    else
      var before := RegistryAfter(reg, q[..|q| - 1]);
      var job := q[|q| - 1];
      if job.callback.Some? then before - {job.callback.value} else before
  }

  /** The call a received job makes, given the registry at that moment: its
      callback is called only if the reference still names a function. */
  function CallOf(job: Job, reg: map<Handle, LuaValue>): seq<Invocation> {
    if job.callback.Some? && job.callback.value in reg && reg[job.callback.value].Function? then
      var args := CallbackArgs(job);
      [Invocation(reg[job.callback.value], args.0, args.1)]
    else []
  }

  /** The calls a poll makes for the jobs q, in order. */
  function CallsFor(reg: map<Handle, LuaValue>, q: seq<Job>): seq<Invocation> {
    if q == [] then []
    else CallsFor(reg, q[..|q| - 1]) + CallOf(q[|q| - 1], RegistryAfter(reg, q[..|q| - 1]))
  }

  /** The references a poll gives back for the jobs q, in order. */
  function Releases(q: seq<Job>): seq<Handle> {
    if q == [] then []
    else Releases(q[..|q| - 1]) + (if q[|q| - 1].callback.Some? then [q[|q| - 1].callback.value] else [])
  }

  // ----- the hook

  /** `listen`: `hook.Add("Think", "gmsv_mongo_async", poll_callbacks)`. */
  method Listen(host: LuaState)
    modifies host`hookInstalled, host`hookCalls
    ensures host.hookInstalled
    ensures host.hookCalls == old(host.hookCalls) + [HookAdd(ThinkEvent, HookIdentifier)]
  {
    host.HookAddCall(ThinkEvent, HookIdentifier);
  }

  /** `deafen`: `hook.Remove("Think", "gmsv_mongo_async")`, then the flag
      is cleared so that the next callback installs the hook again. */
  method Deafen(bridge: JobBridge, host: LuaState)
    modifies bridge`hookRegistered, host`hookInstalled, host`hookCalls
    ensures !bridge.hookRegistered && !host.hookInstalled
    ensures host.hookCalls == old(host.hookCalls) + [HookRemove(ThinkEvent, HookIdentifier)]
  {
    host.HookRemoveCall(ThinkEvent, HookIdentifier);
    bridge.MarkHookUnregistered();
  }

  /** One received job: if its reference names a function, call it with the
      job's result; in every case give the reference back. */
  method RunCallback(host: LuaState, job: Job)
    modifies host`registry, host`released, host`invocations
    ensures host.invocations == old(host.invocations) + CallOf(job, old(host.registry))
    ensures host.registry == if job.callback.Some? then old(host.registry) - {job.callback.value} else old(host.registry)
    ensures host.released == old(host.released) + (if job.callback.Some? then [job.callback.value] else [])
  {
    if job.callback.Some? {
      var h := job.callback.value;
      var f := host.RawGet(h);
      if !f.Function? {
        host.Unref(h);
        return;
      }
      var args := CallbackArgs(job);
      host.PCall(f, args.0, args.1);
      host.Unref(h);
    }
  }

  /** The per-job functions, one job further. */
  lemma PollSnoc(reg: map<Handle, LuaValue>, q: seq<Job>, job: Job)
    ensures RegistryAfter(reg, q + [job]) ==
      if job.callback.Some? then RegistryAfter(reg, q) - {job.callback.value} else RegistryAfter(reg, q)
    ensures CallsFor(reg, q + [job]) == CallsFor(reg, q) + CallOf(job, RegistryAfter(reg, q))
    ensures Releases(q + [job]) == Releases(q) + (if job.callback.Some? then [job.callback.value] else [])
  {
    assert (q + [job])[..|q|] == q;
  }

  /** The receive loop of `poll_callbacks`: run every queued job until
      `try_recv` reports an empty or a disconnected queue, and say which. */
  method DrainQueue(bridge: JobBridge, host: LuaState, sendersGone: bool) returns (processed: nat, disconnected: bool)
    modifies bridge`callbackQueue, host`registry, host`released, host`invocations
    ensures processed == |old(bridge.callbackQueue)| && bridge.callbackQueue == []
    ensures disconnected == sendersGone
    ensures host.invocations == old(host.invocations) + CallsFor(old(host.registry), old(bridge.callbackQueue))
    ensures host.registry == RegistryAfter(old(host.registry), old(bridge.callbackQueue))
    ensures host.released == old(host.released) + Releases(old(bridge.callbackQueue))
  {
    ghost var queue := bridge.callbackQueue;
    ghost var registry := host.registry;
    processed := 0;
    while true
      invariant 0 <= processed <= |queue|
      invariant bridge.callbackQueue == queue[processed..]
      invariant host.registry == RegistryAfter(registry, queue[..processed])
      invariant host.invocations == old(host.invocations) + CallsFor(registry, queue[..processed])
      invariant host.released == old(host.released) + Releases(queue[..processed])
      decreases |bridge.callbackQueue|
    {
      var received := bridge.TryRecv(sendersGone);
      match received {
        case Empty =>
          disconnected := false;
          break;
        case Disconnected =>
          disconnected := true;
          break;
        case Got(job) =>
          assert queue[..processed + 1] == queue[..processed] + [job];
          PollSnoc(registry, queue[..processed], job);
          RunCallback(host, job);
          processed := processed + 1;
      }
    }
    assert queue[..processed] == queue;
  }

  /** `poll_callbacks`, run on every `Think`: receive every queued job, call
      its callback with its result and give its reference back; then count
      the received jobs off the pending counter and remove the hook once
      nothing is pending. A disconnected queue removes the hook at once
      and leaves the counter as it was. The Lua function itself returns no
      values; `processed` is the number of jobs received. */
  method PollCallbacks(bridge: JobBridge, host: LuaState, sendersGone: bool) returns (processed: nat)
    requires bridge.Valid()
    modifies bridge, host
    ensures bridge.Valid()
    ensures processed == |old(bridge.callbackQueue)| && bridge.callbackQueue == []
    ensures bridge.inFlight == old(bridge.inFlight)
    ensures host.invocations == old(host.invocations) + CallsFor(old(host.registry), old(bridge.callbackQueue))
    ensures host.registry == RegistryAfter(old(host.registry), old(bridge.callbackQueue))
    ensures host.released == old(host.released) + Releases(old(bridge.callbackQueue))
    ensures host.nextRef == old(host.nextRef)
    ensures sendersGone ==>
      bridge.pending == old(bridge.pending) && bridge.stranded == old(bridge.stranded) + processed &&
      !bridge.hookRegistered && !host.hookInstalled &&
      host.hookCalls == old(host.hookCalls) + [HookRemove(ThinkEvent, HookIdentifier)]
    ensures !sendersGone ==>
      bridge.pending == old(bridge.pending) - processed && bridge.stranded == old(bridge.stranded)
    ensures !sendersGone && processed > 0 && bridge.pending == 0 ==>
      !bridge.hookRegistered && !host.hookInstalled &&
      host.hookCalls == old(host.hookCalls) + [HookRemove(ThinkEvent, HookIdentifier)]
    ensures !sendersGone && (processed == 0 || bridge.pending != 0) ==>
      bridge.hookRegistered == old(bridge.hookRegistered) && host.hookInstalled == old(host.hookInstalled) &&
      host.hookCalls == old(host.hookCalls)
    ensures old(Coupled(bridge, host)) ==> Registered(old(host.registry), old(bridge.callbackQueue))
    ensures old(Coupled(bridge, host)) && !sendersGone ==> Coupled(bridge, host)
  {
    if Coupled(bridge, host) {
      LiveAfterPoll(host.registry, bridge.inFlight, bridge.callbackQueue);
      RegistryAfterShrinks(host.registry, bridge.callbackQueue);
    }
    var disconnected;
    processed, disconnected := DrainQueue(bridge, host, sendersGone);
    if disconnected {
      Deafen(bridge, host);
      bridge.stranded := bridge.stranded + processed;
      return;
    }
    if processed > 0 {
      bridge.DecreaseCallbacksPending(processed);
      var n := bridge.GetCallbacksPending();
      if n == 0 {
        Deafen(bridge, host);
      }
    }
  }

  // ----- properties of a poll

  /** The callbacks of q are distinct registered functions. */
  ghost predicate Registered(reg: map<Handle, LuaValue>, q: seq<Job>) {
    (forall k :: 0 <= k < |q| ==>
      q[k].callback.Some? && q[k].callback.value in reg && reg[q[k].callback.value].Function?) &&
    (forall j, k :: 0 <= j < k < |q| ==> q[j].callback != q[k].callback)
  }

  /** Giving back other jobs' references leaves a reference alone. */
  lemma {:induction false} RegistryAfterKeeps(reg: map<Handle, LuaValue>, q: seq<Job>, h: Handle)
    requires forall k :: 0 <= k < |q| ==> q[k].callback != Some(h)
    ensures (h in RegistryAfter(reg, q)) == (h in reg)
    ensures h in reg ==> RegistryAfter(reg, q)[h] == reg[h]
    decreases |q|
  {
    if q != [] {
      RegistryAfterKeeps(reg, q[..|q| - 1], h);
    }
  }

  /** Every queued callback is called exactly once, in queue order, with its
      own result, and every reference is given back once, in the same
      order. */
  lemma {:induction false} EveryCallbackOnce(reg: map<Handle, LuaValue>, q: seq<Job>)
    requires Registered(reg, q)
    ensures |CallsFor(reg, q)| == |q| && |Releases(q)| == |q|
    ensures forall k :: 0 <= k < |q| ==>
      CallsFor(reg, q)[k] == Invocation(reg[q[k].callback.value], CallbackArgs(q[k]).0, CallbackArgs(q[k]).1) &&
      Releases(q)[k] == q[k].callback.value
    decreases |q|
  {
    if q != [] {
      var front, last := q[..|q| - 1], q[|q| - 1];
      assert Registered(reg, front);
      EveryCallbackOnce(reg, front);
      var h := last.callback.value;
      assert forall k :: 0 <= k < |front| ==> front[k].callback != Some(h) by {
        assert forall k :: 0 <= k < |front| ==> front[k] == q[k];
      }
      RegistryAfterKeeps(reg, front, h);
      assert CallOf(last, RegistryAfter(reg, front)) ==
        [Invocation(reg[h], CallbackArgs(last).0, CallbackArgs(last).1)];
    }
  }

  /** Giving references back only removes entries. */
  lemma {:induction false} RegistryAfterShrinks(reg: map<Handle, LuaValue>, q: seq<Job>)
    ensures forall h :: h in RegistryAfter(reg, q) ==> h in reg && RegistryAfter(reg, q)[h] == reg[h]
    decreases |q|
  {
    if q != [] {
      RegistryAfterShrinks(reg, q[..|q| - 1]);
    }
  }

  /** A job in the queue whose reference no longer names a function is
      skipped: its reference is given back and nothing is called. */
  lemma SkippedJob(reg: map<Handle, LuaValue>, job: Job)
    requires job.callback.Some? && (job.callback.value !in reg || !reg[job.callback.value].Function?)
    ensures CallsFor(reg, [job]) == [] && Releases([job]) == [job.callback.value]
    ensures RegistryAfter(reg, [job]) == reg - {job.callback.value}
  {
    assert [job][..0] == [];
  }

  // ----- the bridge and the Lua state together

  /** The references of the jobs q are distinct and each names a function in
      the registry reg. */
  ghost predicate Live(reg: map<Handle, LuaValue>, q: seq<Job>) {
    DistinctCallbacks(q) &&
    forall k :: 0 <= k < |q| && q[k].callback.Some? ==> q[k].callback.value in reg && reg[q[k].callback.value].Function?
  }

  /** What ties the bridge to the Lua state: the flag says whether the hook
      is installed; while a callback job is in flight or queued the hook is
      installed, so a poll will come; and the reference of every in-flight
      or queued job names its callback, no two alike. */
  ghost predicate Coupled(bridge: JobBridge, host: LuaState)
    reads bridge, host
  {
    bridge.Valid() && host.Valid() &&
    bridge.hookRegistered == host.hookInstalled &&
    (CallbackJobs(bridge.inFlight) + |bridge.callbackQueue| > 0 ==> host.hookInstalled) &&
    Live(host.registry, bridge.inFlight + bridge.callbackQueue)
  }

  /** A call that takes a fresh reference to the function fn for its job, or
      none, and submits the job to the end of the in-flight jobs a (if the
      channel accepts it) keeps the references live and distinct. */
  lemma LiveAfterCall(reg: map<Handle, LuaValue>, a: seq<Job>, b: seq<Job>, job: Job, fn: LuaValue, accepted: bool)
    requires Live(reg, a + b)
    requires job.callback.Some? ==> job.callback.value !in reg && fn.Function?
    ensures Live(if job.callback.Some? then reg[job.callback.value := fn] else reg, (if accepted then a + [job] else a) + b)
  {
    var reg' := if job.callback.Some? then reg[job.callback.value := fn] else reg;
    var q, q' := a + b, (if accepted then a + [job] else a) + b;
    if accepted {
      // q' is q with job inserted at position |a|
      assert forall k :: 0 <= k < |q'| && k != |a| ==> q'[k] == q[if k < |a| then k else k - 1];
      assert q'[|a|] == job;
      forall k | 0 <= k < |q'| && q'[k].callback.Some?
        ensures q'[k].callback.value in reg' && reg'[q'[k].callback.value].Function?
      {
        if k != |a| {
          assert q'[k] == q[if k < |a| then k else k - 1];
        }
      }
      forall j, k | 0 <= j < k < |q'| && q'[j].callback.Some?
        ensures q'[j].callback != q'[k].callback
      {
        if j != |a| && k != |a| {
          assert q'[j] == q[if j < |a| then j else j - 1];
          assert q'[k] == q[if k < |a| then k else k - 1];
        } else if j == |a| {
          assert q'[k] == q[k - 1];
        } else {
          assert q'[j] == q[j];
        }
      }
    } else {
      assert q' == q;
    }
  }

  /** The worker completing in-flight job i, which moves to the end of the
      callback queue with its result or is dropped, keeps the references
      live and distinct. */
  lemma LiveAfterComplete(reg: map<Handle, LuaValue>, a: seq<Job>, b: seq<Job>, i: nat, r: JobResult, delivered: bool)
    requires i < |a| && Live(reg, a + b)
    ensures Live(reg, (a[..i] + a[i + 1..]) + (if a[i].callback.Some? && delivered then b + [a[i].(result := Some(r))] else b))
  {
    var q := a + b;
    var rest := (a[..i] + a[i + 1..]) + b;
    assert q[..i] + q[i + 1..] == rest;
    assert forall k :: 0 <= k < |rest| ==> rest[k] == if k < i then q[k] else q[k + 1];
    DistinctRemove(q, i);
    var job := a[i].(result := Some(r));
    if a[i].callback.Some? && delivered {
      assert forall k :: 0 <= k < |rest| ==> rest[k] in rest;
      DistinctSnoc(rest, job);
      assert rest + [job] == (a[..i] + a[i + 1..]) + (b + [job]);
    }
  }

  /** Before a poll that receives the whole queue b: its callbacks are
      distinct registered functions, and giving their references back
      leaves those of the in-flight jobs a live. */
  lemma LiveAfterPoll(reg: map<Handle, LuaValue>, a: seq<Job>, b: seq<Job>)
    requires Live(reg, a + b)
    requires forall k :: 0 <= k < |b| ==> b[k].callback.Some?
    ensures Registered(reg, b)
    ensures Live(RegistryAfter(reg, b), a)
  {
    var q := a + b;
    assert forall k :: 0 <= k < |b| ==> b[k] == q[|a| + k];
    assert forall k :: 0 <= k < |a| ==> a[k] == q[k];
    forall k | 0 <= k < |a| && a[k].callback.Some?
      ensures a[k].callback.value in RegistryAfter(reg, b) && RegistryAfter(reg, b)[a[k].callback.value].Function?
    {
      var h := a[k].callback.value;
      assert forall m :: 0 <= m < |b| ==> b[m].callback != Some(h) by {
        assert forall m :: 0 <= m < |b| ==> q[k].callback != b[m].callback;
      }
      RegistryAfterKeeps(reg, b, h);
    }
  }

  /** The worker's `process_job`, seen together with the Lua state it does
      not touch: it keeps the two sides coupled. */
  method CompleteJob(bridge: JobBridge, host: LuaState, i: nat, reply: Reply, delivered: bool)
    requires Coupled(bridge, host) && i < |bridge.inFlight| && ReplyFits(bridge.inFlight[i].operation, reply)
    modifies bridge
    ensures Coupled(bridge, host)
    ensures bridge.inFlight == old(bridge.inFlight[..i] + bridge.inFlight[i + 1..])
    ensures var job := old(bridge.inFlight[i]);
      bridge.callbackQueue == if job.callback.Some? && delivered
                              then old(bridge.callbackQueue) + [job.(result := Some(Outcome(job.operation, reply)))]
                              else old(bridge.callbackQueue)
    ensures bridge.pending == old(bridge.pending) && bridge.hookRegistered == old(bridge.hookRegistered)
  {
    var job := bridge.inFlight[i];
    bridge.ProcessJob(i, reply, delivered);
    LiveAfterComplete(host.registry, old(bridge.inFlight), old(bridge.callbackQueue), i, Outcome(job.operation, reply), delivered);
    CallbackJobsRemove(old(bridge.inFlight), i);
  }
}

/** Whole journeys through the bridge, from the Lua call to the callback,
    composed from the contracts of the steps. */
module Scenarios {
  import opened Wrappers
  import opened Bson
  import opened Lua
  import opened Conversion
  import opened Worker
  import opened Host
  import opened Callbacks
  import opened CollectionAsync

  /** `find_async(collection, {}, 0, callback)` on a cursor of two
      documents: the call answers true and installs the hook; the worker's
      result reaches the callback as a list holding the first document only;
      the reference is given back, nothing is pending and the hook is gone.
      The bridge and the Lua state stay coupled throughout. */
  method FindWithZeroLimit(d: Doc, e: Doc) returns (invocations: seq<Invocation>, released: seq<Handle>)
    ensures invocations == [Invocation(Function(1), Nil, ListTable(Tables([d])))]
    ensures |released| == 1
  {
    var bridge, host, h := SubmitZeroLimitFind();
    var job := ProcessTwoDocuments(bridge, host, h, d, e);
    assert CallbackArgs(job) == (Nil, ListTable(Tables([d])));
    PollOne(bridge, host, job, Function(1));
    invocations, released := host.invocations, host.released;
  }

  /** The call itself: a job with a fresh reference to the callback is in
      flight, counted once, and the hook is installed. */
  method SubmitZeroLimitFind() returns (bridge: JobBridge, host: LuaState, ghost h: Handle)
    ensures fresh(bridge) && fresh(host) && bridge.Valid() && host.Valid()
    ensures bridge.inFlight == [Job(Find(7, [], Some(0)), Some(h), None)] && bridge.callbackQueue == []
    ensures bridge.pending == 1 && bridge.hookRegistered && host.hookInstalled
    ensures host.registry == map[h := Function(1)] && host.invocations == [] && host.released == []
    ensures Coupled(bridge, host)
  {
    bridge := new JobBridge();
    host := new LuaState();
    assert Coupled(bridge, host);
    var args := [Userdata(7), Table([]), Num(0), Function(1)];
    EmptyTableIsDocument();
    assert Request(FindAsync, 7, args) == Some(Find(7, [], Some(0)));
    var outcome, callback := AsyncCall(bridge, host, FindAsync, args, true);
    assert outcome == Returned(true);
    h := callback.value;
  }

  /** The worker runs the job on a cursor of two documents: a limit of 0
      keeps the first. */
  method ProcessTwoDocuments(bridge: JobBridge, host: LuaState, ghost h: Handle, d: Doc, e: Doc) returns (ghost job: Job)
    requires Coupled(bridge, host)
    requires bridge.inFlight == [Job(Find(7, [], Some(0)), Some(h), None)] && bridge.callbackQueue == []
    modifies bridge
    ensures Coupled(bridge, host)
    ensures bridge.Valid() && bridge.inFlight == [] && bridge.pending == old(bridge.pending)
    ensures job == Job(Find(7, [], Some(0)), Some(h), Some(Found(Success([d])))) && bridge.callbackQueue == [job]
    ensures bridge.hookRegistered == old(bridge.hookRegistered)
  {
    var op := Find(7, [], Some(0));
    var reply := CursorReply(Success([Item(d), Item(e)]));
    NonPositiveLimitTakesOne(d, [Item(e)], 0);
    assert [Item(d)] + [Item(e)] == [Item(d), Item(e)];
    assert Outcome(op, reply) == Found(Success([d]));
    CompleteJob(bridge, host, 0, reply, true);
    job := Job(op, Some(h), Some(Found(Success([d]))));
  }

  /** A poll with one job queued and nothing else pending calls its
      callback, gives its reference back and removes the hook. */
  method PollOne(bridge: JobBridge, host: LuaState, ghost job: Job, f: LuaValue)
    requires Coupled(bridge, host) && bridge.callbackQueue == [job] && bridge.pending == 1
    requires job.callback.Some? && host.registry == map[job.callback.value := f] && f.Function?
    modifies bridge, host
    ensures host.invocations == old(host.invocations) + [Invocation(f, CallbackArgs(job).0, CallbackArgs(job).1)]
    ensures host.released == old(host.released) + [job.callback.value] && host.registry == map[]
    ensures bridge.pending == 0 && bridge.callbackQueue == [] && !bridge.hookRegistered && !host.hookInstalled
    ensures Coupled(bridge, host)
  {
    ghost var registry := host.registry;
    var processed := PollCallbacks(bridge, host, false);
    assert [job][..0] == [];
    assert RegistryAfter(registry, [job]) == map[];
  }

  /** A call whose filter is not a table answers false and changes nothing:
      no reference, no hook, nothing pending. */
  method BadFilterChangesNothing() returns (outcome: CallOutcome, pending: nat, hookInstalled: bool, registry: map<Handle, LuaValue>)
    ensures outcome == Returned(false) && pending == 0 && !hookInstalled && registry == map[]
  {
    var bridge := new JobBridge();
    var host := new LuaState();
    var args := [Userdata(7), Str("not a table"), Function(1)];
    ghost var callback;
    assert Arg(args, 1) == Userdata(7) && TableToDocument(Arg(args, 2)).Failure?;
    outcome, callback := AsyncCall(bridge, host, CountDocumentsAsync, args, true);
    pending, hookInstalled, registry := bridge.pending, host.hookInstalled, host.registry;
  }

  /** A call on something that is not a collection raises the userdata
      error. */
  method NotACollectionRaises() returns (outcome: CallOutcome)
    ensures outcome == Raised(NullUserdataMessage)
  {
    var bridge := new JobBridge();
    var host := new LuaState();
    ghost var callback;
    outcome, callback := AsyncCall(bridge, host, DeleteOneAsync, [Str("users"), Table([])], true);
  }
}

/** The asynchronous collection functions Lua calls
    (src/api/collection_async.rs): read the collection, convert the
    arguments, take a reference to the callback (installing the hook on
    first use), and submit the job. Each function answers true when the
    job was submitted and false when an argument did not convert or the
    submission failed; a first argument that is not userdata raises a Lua
    error. */
module CollectionAsync {
  import opened Wrappers
  import opened Bson
  import opened Lua
  import opened Conversion
  import opened Worker
  import opened Host
  import opened Callbacks

  /** `push_error` of the error `read_userdata` reports. */
  const NullUserdataMessage: string := "Invalid userdata: Expected userdata, got null pointer"
  const GroupStage: string := "$group"
  const IdField: string := "_id"

  datatype AsyncFunction =
    | InsertOneAsync | InsertManyAsync | FindAsync | FindOneAsync
    | UpdateOneAsync | UpdateManyAsync | DeleteOneAsync | DeleteManyAsync
    | CountDocumentsAsync | AggregateAsync

  /** What a call gives back to Lua: one boolean, or a raised error. */
  datatype CallOutcome = Returned(ok: bool) | Raised(message: string)

  /** Argument i (from 1) of a call; nil when absent. */
  function Arg(args: seq<LuaValue>, i: nat): LuaValue {
    if 1 <= i <= |args| then args[i - 1] else Nil
  }

  /** `read_userdata`: `lua_touserdata` gives the block of a full userdata
      and the pointer of a light one, and null for everything else; the
      collection is read from that block unchecked. */
  function CollectionOf(v: LuaValue): (c: Option<CollectionId>)
    ensures c.None? <==> !(v.Userdata? || (v.LightUserdata? && v.ptr != 0))
  {
    match v
    case Userdata(u) => Some(u)
    case LightUserdata(p) => if p != 0 then Some(p) else None
    case _ => None
  }

  /** The limit argument of `find_async`: a number, or a string Lua reads as
      one, cast to i64 with saturation; anything else means no limit. */
  function LimitArg(v: LuaValue): (r: Option<i64>)
    ensures r.Some? <==> v.Num? || (v.Str? && StringToNumber(v.s).Some?)
    ensures v.Num? ==> r.value == SaturateI64(v.n)
    ensures v.Num? && I64_MIN <= v.n <= I64_MAX ==> r.value == v.n
    ensures v.Str? && StringToNumber(v.s).Some? ==> r.value == SaturateI64(StringToNumber(v.s).value)
  {
    match v
    case Num(n) => Some(SaturateI64(n))
    case Str(s) => if StringToNumber(s).Some? then Some(SaturateI64(StringToNumber(s).value)) else None
    case _ => None
  }

  /** A numeric string with white space around it is a limit, as Lua reads
      `" 5 "` as the number 5. */
  lemma PaddedLimit(n: int)
    ensures LimitArg(Str(" " + IntToString(n) + "\n")) == Some(SaturateI64(n))
  {
    PaddedIntToString(n);
  }

  /** The upsert argument of the two updates: a boolean's value, false for
      anything else. */
  function UpsertArg(v: LuaValue): (b: bool)
    ensures b <==> v == Bool(true)
  {
    if v.Bool? then v.b else false
  }

  /** The argument slot of the callback. */
  function CallbackSlot(f: AsyncFunction): (slot: nat)
    ensures 3 <= slot <= 5
  {
    match f
    case FindAsync => 4
    case UpdateOneAsync => 5
    case UpdateManyAsync => 5
    case _ => 3
  }

  // ----- lists of documents (insert_many and aggregate)

  /** The conversion applied to each element of a list argument. */
  type ElementConversion = LuaValue -> Result<Doc, LuaError>

  /** The index loop from position i on: read t[i] until it is nil,
      converting each element; the first element that does not convert
      ends it with nothing. The lemmas below hold for any conversion. */
  function ListFrom(convert: ElementConversion, t: LuaValue, i: nat, acc: seq<Doc>): (r: Option<seq<Doc>>)
    requires t.Table? && 1 <= i
    requires forall j :: 1 <= j < i ==> Get(t, Num(j)) != Nil
    decreases |t.entries| + 1 - i
  {
    PresentBound(t, i - 1);
    var element := Get(t, Num(i));
    if element == Nil then Some(acc)
    else
      PresentBound(t, i);
      match convert(element)
      case Failure(_) => None
      case Success(d) => ListFrom(convert, t, i + 1, acc + [d])
  }

  /** The documents of a list argument, each element read with
      `lua_table_to_bson`. */
  function DocumentList(t: LuaValue): Option<seq<Doc>>
    requires t.Table?
  {
    ListFrom(TableToDocument, t, 1, [])
  }

  /** Keys 1..n all present put n within the length. */
  lemma PresentWithinLength(t: LuaValue, n: nat)
    requires t.Table? && forall j :: 1 <= j <= n ==> Get(t, Num(j)) != Nil
    ensures n <= Length(t)
  {
    var m := Length(t);
    var next := Get(t, Num(m + 1));
    assert m < n ==> next != Nil;
  }

  /** One step of the index loop: a nil element ends the list; otherwise
      the element is converted and the loop goes on, or ends with nothing. */
  lemma ListFromStep(convert: ElementConversion, t: LuaValue, i: nat, acc: seq<Doc>)
    requires t.Table? && 1 <= i
    requires forall j :: 1 <= j < i ==> Get(t, Num(j)) != Nil
    ensures Get(t, Num(i)) == Nil ==> ListFrom(convert, t, i, acc) == Some(acc)
    ensures Get(t, Num(i)) != Nil && convert(Get(t, Num(i))).Failure? ==> ListFrom(convert, t, i, acc) == None
    ensures Get(t, Num(i)) != Nil && convert(Get(t, Num(i))).Success? ==>
      ListFrom(convert, t, i, acc) == ListFrom(convert, t, i + 1, acc + [convert(Get(t, Num(i))).value])
  {
  }

  /** A list read on from index i keeps the earlier elements and holds the
      conversion of each element i up to the length, in index order. */
  lemma {:induction false} ListFromSome(convert: ElementConversion, t: LuaValue, i: nat, acc: seq<Doc>)
    requires t.Table? && 1 <= i && |acc| == i - 1
    requires forall j :: 1 <= j < i ==> Get(t, Num(j)) != Nil
    requires ListFrom(convert, t, i, acc).Some?
    ensures var r := ListFrom(convert, t, i, acc).value;
      |r| == Length(t) && r[..|acc|] == acc &&
      forall k :: i <= k <= Length(t) ==> convert(Get(t, Num(k))) == Success(r[k - 1])
    decreases |t.entries| + 1 - i
  {
    PresentBound(t, i - 1);
    var element := Get(t, Num(i));
    if element == Nil {
      LengthUnique(t, i - 1);
    } else {
      PresentBound(t, i);
      var d := convert(element).value;
      var acc' := acc + [d];
      ListFromSome(convert, t, i + 1, acc');
      var r := ListFrom(convert, t, i + 1, acc').value;
      assert r[..|acc'|] == acc';
      assert r[i - 1] == acc'[i - 1] == d;
      assert r[..|acc|] == acc'[..|acc|] == acc;
    }
  }

  /** A list read on from index i is missing exactly when one of the
      elements i up to the length does not convert. */
  lemma {:induction false} ListFromNone(convert: ElementConversion, t: LuaValue, i: nat, acc: seq<Doc>)
    requires t.Table? && 1 <= i
    requires forall j :: 1 <= j < i ==> Get(t, Num(j)) != Nil
    ensures ListFrom(convert, t, i, acc).None? <==>
            exists k :: i <= k <= Length(t) && convert(Get(t, Num(k))).Failure?
    decreases |t.entries| + 1 - i
  {
    PresentBound(t, i - 1);
    ListFromStep(convert, t, i, acc);
    var element := Get(t, Num(i));
    if element == Nil {
      LengthUnique(t, i - 1);
      assert ListFrom(convert, t, i, acc).Some? && Length(t) < i;
    } else {
      PresentBound(t, i);
      PresentWithinLength(t, i);
      var d := convert(element);
      if d.Success? {
        assert ListFrom(convert, t, i, acc) == ListFrom(convert, t, i + 1, acc + [d.value]);
        ListFromNone(convert, t, i + 1, acc + [d.value]);
        FailureAfter(convert, t, i);
      } else {
        assert ListFrom(convert, t, i, acc).None?;
        assert i <= Length(t) && convert(Get(t, Num(i))).Failure?;
      }
    }
  }

  /** When element i converts, the elements that do not are those after it. */
  lemma FailureAfter(convert: ElementConversion, t: LuaValue, i: nat)
    requires t.Table? && convert(Get(t, Num(i))).Success?
    ensures (exists k :: i <= k <= Length(t) && convert(Get(t, Num(k))).Failure?) <==>
            (exists k :: i + 1 <= k <= Length(t) && convert(Get(t, Num(k))).Failure?)
  {
  }

  /** The list read from a table holds one document per element t[1..n],
      where n is the table's length, each the conversion of that element,
      in order; it is missing exactly when one of those elements does not
      convert. */
  lemma DocumentListSpec(t: LuaValue)
    requires t.Table?
    ensures var r := DocumentList(t);
      (r.Some? ==> |r.value| == Length(t) &&
                   forall k :: 1 <= k <= Length(t) ==> TableToDocument(Get(t, Num(k))) == Success(r.value[k - 1])) &&
      (r.None? <==> exists k :: 1 <= k <= Length(t) && TableToDocument(Get(t, Num(k))).Failure?)
  {
    if DocumentList(t).Some? {
      ListFromSome(TableToDocument, t, 1, []);
    }
    ListFromNone(TableToDocument, t, 1, []);
  }

  /** The loop of `insert_many_async` and `aggregate_async`. */
  method ReadDocumentList(t: LuaValue) returns (r: Option<seq<Doc>>)
    requires t.Table?
    ensures r == DocumentList(t)
  {
    var documents: seq<Doc> := [];
    var index := 1;
    while true
      invariant 1 <= index && forall j :: 1 <= j < index ==> Get(t, Num(j)) != Nil
      invariant ListFrom(TableToDocument, t, index, documents) == DocumentList(t)
      decreases |t.entries| + 1 - index
    {
      PresentBound(t, index - 1);
      var element := Get(t, Num(index));
      if element == Nil {
        return Some(documents);
      }
      PresentBound(t, index);
      ListFromStep(TableToDocument, t, index, documents);
      var converted := LuaTableToBson(element);
      match converted {
        case Failure(_) =>
          return None;
        case Success(doc) =>
          documents := documents + [doc];
      }
      index := index + 1;
    }
  }

  // ----- the $group rewrite of aggregate

  /** A `$group` stage without an `_id` gets `_id: null`, so that a nil
      grouping key written in Lua still groups. Any other stage is left as
      it is. */
  function NormaliseStage(stage: Doc): Doc {
    match Lookup(stage, GroupStage)
    case Some(Document(g)) =>
      if IdField in Keys(g) then stage else Insert(stage, GroupStage, Document(Insert(g, IdField, Null)))
    case _ => stage
  }

  /** The rewrite changes no field other than `$group`, keeps the stage's
      size, and leaves a `$group` document that names an `_id`: its own,
      or null; its other fields are kept. */
  lemma NormaliseStageSpec(stage: Doc, k: string)
    ensures |NormaliseStage(stage)| == |stage|
    ensures k != GroupStage ==> Lookup(NormaliseStage(stage), k) == Lookup(stage, k)
    ensures var group := Lookup(stage, GroupStage);
      group.Some? && group.value.Document? ==>
        var g, g' := group.value.fields, Lookup(NormaliseStage(stage), GroupStage);
        g'.Some? && g'.value.Document? && IdField in Keys(g'.value.fields) &&
        Lookup(g'.value.fields, IdField) == (if IdField in Keys(g) then Lookup(g, IdField) else Some(Null)) &&
        (k != IdField ==> Lookup(g'.value.fields, k) == Lookup(g, k))
    ensures var group := Lookup(stage, GroupStage);
      !(group.Some? && group.value.Document?) ==> NormaliseStage(stage) == stage
  {
    var group := Lookup(stage, GroupStage);
    if group.Some? && group.value.Document? && IdField !in Keys(group.value.fields) {
      var g := group.value.fields;
      var g' := Insert(g, IdField, Null);
      GroupGainsId(stage, g);
      LookupInsert(stage, GroupStage, Document(g'), k);
      LookupInsert(stage, GroupStage, Document(g'), GroupStage);
      IdInserted(g, k);
    }
  }

  /** The case that rewrites: `_id: null` is added to the `$group` document,
      which keeps its place, so the stage keeps its size. */
  lemma GroupGainsId(stage: Doc, g: Doc)
    requires Lookup(stage, GroupStage) == Some(Document(g)) && IdField !in Keys(g)
    ensures NormaliseStage(stage) == Insert(stage, GroupStage, Document(Insert(g, IdField, Null)))
    ensures |NormaliseStage(stage)| == |stage|
  {
  }

  lemma IdInserted(g: Doc, k: string)
    ensures var g' := Insert(g, IdField, Null);
      IdField in Keys(g') && Lookup(g', IdField) == Some(Null) &&
      (k != IdField ==> Lookup(g', k) == Lookup(g, k))
  {
    LookupInsert(g, IdField, Null, k);
    LookupInsert(g, IdField, Null, IdField);
  }

  /** Rewriting twice is rewriting once. */
  lemma NormaliseIdempotent(stage: Doc)
    ensures NormaliseStage(NormaliseStage(stage)) == NormaliseStage(stage)
  {
    NormaliseStageSpec(stage, GroupStage);
  }

  /** The rewrite loop over the pipeline, stage by stage in place. */
  method NormaliseGroupStages(pipeline: seq<Doc>) returns (r: seq<Doc>)
    ensures |r| == |pipeline|
    ensures forall k :: 0 <= k < |r| ==> r[k] == NormaliseStage(pipeline[k])
  {
    r := pipeline;
    for i := 0 to |r|
      invariant |r| == |pipeline|
      invariant forall k :: 0 <= k < i ==> r[k] == NormaliseStage(pipeline[k])
      invariant forall k :: i <= k < |r| ==> r[k] == pipeline[k]
    {
      r := r[i := NormaliseStage(r[i])];
    }
  }

  // ----- the request each function builds

  function Normalised(pipeline: seq<Doc>): (r: seq<Doc>)
    ensures |r| == |pipeline|
  {
    seq(|pipeline|, k requires 0 <= k < |pipeline| => NormaliseStage(pipeline[k]))
  }

  /** The operation a call submits, or none when an argument does not
      convert: the document or filter in slot 2, the update in slot 3, the
      limit in slot 3 and the upsert flag in slot 4; for `insert_many` and
      `aggregate` a table in slot 2 whose elements 1, 2, ... are
      documents. */
  /** The operation each function submits. */
  predicate OperationFor(f: AsyncFunction, op: Operation) {
    match f
    case InsertOneAsync => op.InsertOne?
    case InsertManyAsync => op.InsertMany?
    case FindAsync => op.Find?
    case FindOneAsync => op.FindOne?
    case UpdateOneAsync => op.UpdateOne?
    case UpdateManyAsync => op.UpdateMany?
    case DeleteOneAsync => op.DeleteOne?
    case DeleteManyAsync => op.DeleteMany?
    case CountDocumentsAsync => op.CountDocuments?
    case AggregateAsync => op.Aggregate?
  }

  function Request(f: AsyncFunction, c: CollectionId, args: seq<LuaValue>): (r: Option<Operation>)
    ensures r.Some? ==> r.value.collection == c && OperationFor(f, r.value)
    ensures f != InsertManyAsync && f != AggregateAsync ==>
      (r.Some? <==> TableToDocument(Arg(args, 2)).Success? &&
                    (f == UpdateOneAsync || f == UpdateManyAsync ==> TableToDocument(Arg(args, 3)).Success?))
    ensures f == InsertManyAsync || f == AggregateAsync ==>
      (r.Some? <==> Arg(args, 2).Table? && DocumentList(Arg(args, 2)).Some?)
  {
    var second := TableToDocument(Arg(args, 2));
    match f
    case InsertOneAsync => if second.Success? then Some(InsertOne(c, second.value)) else None
    case InsertManyAsync =>
      var t := Arg(args, 2);
      if t.Table? && DocumentList(t).Some? then Some(InsertMany(c, DocumentList(t).value)) else None
    case FindAsync => if second.Success? then Some(Find(c, second.value, LimitArg(Arg(args, 3)))) else None
    case FindOneAsync => if second.Success? then Some(FindOne(c, second.value)) else None
    case UpdateOneAsync =>
      var update := TableToDocument(Arg(args, 3));
      if second.Success? && update.Success? then Some(UpdateOne(c, second.value, update.value, UpsertArg(Arg(args, 4))))
      else None
    case UpdateManyAsync =>
      var update := TableToDocument(Arg(args, 3));
      if second.Success? && update.Success? then Some(UpdateMany(c, second.value, update.value, UpsertArg(Arg(args, 4))))
      else None
    case DeleteOneAsync => if second.Success? then Some(DeleteOne(c, second.value)) else None
    case DeleteManyAsync => if second.Success? then Some(DeleteMany(c, second.value)) else None
    case CountDocumentsAsync => if second.Success? then Some(CountDocuments(c, second.value)) else None
    case AggregateAsync =>
      var t := Arg(args, 2);
      if t.Table? && DocumentList(t).Some? then Some(Aggregate(c, Normalised(DocumentList(t).value))) else None
  }

  /** The argument conversions of each function, in the source's order. */
  method BuildRequest(f: AsyncFunction, c: CollectionId, args: seq<LuaValue>) returns (r: Option<Operation>)
    ensures r == Request(f, c, args)
  {
    if f == InsertManyAsync || f == AggregateAsync {
      var t := Arg(args, 2);
      if !t.Table? {
        return None;
      }
      var list := ReadDocumentList(t);
      if list.None? {
        return None;
      }
      if f == InsertManyAsync {
        return Some(InsertMany(c, list.value));
      }
      var pipeline := NormaliseGroupStages(list.value);
      assert pipeline == Normalised(list.value);
      return Some(Aggregate(c, pipeline));
    }
    var second := LuaTableToBson(Arg(args, 2));
    if second.Failure? {
      return None;
    }
    var filter := second.value;
    match f {
      case InsertOneAsync => r := Some(InsertOne(c, filter));
      case FindAsync => r := Some(Find(c, filter, LimitArg(Arg(args, 3))));
      case FindOneAsync => r := Some(FindOne(c, filter));
      case DeleteOneAsync => r := Some(DeleteOne(c, filter));
      case DeleteManyAsync => r := Some(DeleteMany(c, filter));
      case CountDocumentsAsync => r := Some(CountDocuments(c, filter));
      case UpdateOneAsync =>
        var update := LuaTableToBson(Arg(args, 3));
        r := if update.Success? then Some(UpdateOne(c, filter, update.value, UpsertArg(Arg(args, 4)))) else None;
      case UpdateManyAsync =>
        var update := LuaTableToBson(Arg(args, 3));
        r := if update.Success? then Some(UpdateMany(c, filter, update.value, UpsertArg(Arg(args, 4)))) else None;
    }
  }

  /** Every `$group` document of a submitted pipeline names an `_id`. */
  lemma AggregateGroupsHaveId(c: CollectionId, args: seq<LuaValue>, k: nat)
    requires Request(AggregateAsync, c, args).Some?
    ensures var p := Request(AggregateAsync, c, args).value.pipeline;
      k < |p| && Lookup(p[k], GroupStage).Some? && Lookup(p[k], GroupStage).value.Document? ==>
        IdField in Keys(Lookup(p[k], GroupStage).value.fields)
  {
    var p := Request(AggregateAsync, c, args).value.pipeline;
    if k < |p| {
      var stage := DocumentList(Arg(args, 2)).value[k];
      NormaliseStageSpec(stage, GroupStage);
      NormaliseIdempotent(stage);
    }
  }

  /** An `insert_many` submits one document per element of its list, the
      list's length of them. */
  lemma InsertManyCount(c: CollectionId, args: seq<LuaValue>)
    requires Request(InsertManyAsync, c, args).Some?
    ensures |Request(InsertManyAsync, c, args).value.documents| == Length(Arg(args, 2))
  {
    DocumentListSpec(Arg(args, 2));
  }

  /** A filter that does not convert submits nothing. */
  lemma BadFilterRefused(f: AsyncFunction, c: CollectionId, args: seq<LuaValue>)
    requires f != InsertManyAsync && f != AggregateAsync
    requires TableToDocument(Arg(args, 2)).Failure?
    ensures Request(f, c, args) == None
  {
  }

  /** A non-table list argument submits nothing. */
  lemma NonTableListRefused(c: CollectionId, args: seq<LuaValue>)
    requires !Arg(args, 2).Table?
    ensures Request(InsertManyAsync, c, args) == None && Request(AggregateAsync, c, args) == None
  {
  }

  // ----- the call

  /** `maybe_register_hook`: install the hook if the flag was clear. */
  method MaybeRegisterHook(bridge: JobBridge, host: LuaState)
    modifies bridge`hookRegistered, host`hookInstalled, host`hookCalls
    ensures bridge.hookRegistered
    ensures host.hookInstalled == (old(host.hookInstalled) || !old(bridge.hookRegistered))
    ensures host.hookCalls == old(host.hookCalls) + (if old(bridge.hookRegistered) then [] else [HookAdd(ThinkEvent, HookIdentifier)])
  {
    var first := bridge.ShouldRegisterHook();
    if first {
      Listen(host);
    }
  }

  /** The callback argument of every asynchronous function: a function
      installs the hook if needed and is kept in the registry under a fresh
      reference; anything else means no callback. */
  method TakeCallback(bridge: JobBridge, host: LuaState, fn: LuaValue) returns (reference: Option<Handle>)
    requires bridge.Valid() && host.Valid()
    modifies bridge`hookRegistered, host`hookInstalled, host`hookCalls, host`registry, host`nextRef
    ensures bridge.Valid() && host.Valid()
    ensures reference.Some? == fn.Function?
    ensures reference.Some? ==> reference.value !in old(host.registry) && host.registry == old(host.registry)[reference.value := fn]
    ensures reference.None? ==> host.registry == old(host.registry) && host.nextRef == old(host.nextRef)
    ensures fn.Function? ==> bridge.hookRegistered && host.hookInstalled == (old(host.hookInstalled) || !old(bridge.hookRegistered))
    ensures !fn.Function? ==> bridge.hookRegistered == old(bridge.hookRegistered) && host.hookInstalled == old(host.hookInstalled)
    ensures host.hookCalls == old(host.hookCalls) + (if fn.Function? && !old(bridge.hookRegistered) then [HookAdd(ThinkEvent, HookIdentifier)] else [])
  {
    reference := None;
    if fn.Function? {
      MaybeRegisterHook(bridge, host);
      var h := host.Ref(fn);
      reference := Some(h);
    }
  }

  /** One call of an asynchronous collection function with the arguments
      `args`; `accepted` says whether the job channel takes the job. The
      ghost `callback` is the reference taken for the callback, if any. */
  method AsyncCall(bridge: JobBridge, host: LuaState, f: AsyncFunction, args: seq<LuaValue>, accepted: bool)
    returns (outcome: CallOutcome, ghost callback: Option<Handle>)
    requires bridge.Valid() && host.Valid()
    modifies bridge, host
    ensures bridge.Valid() && host.Valid()
    ensures CollectionOf(Arg(args, 1)).None? ==>
      outcome == Raised(NullUserdataMessage) && unchanged(bridge) && unchanged(host)
    ensures CollectionOf(Arg(args, 1)).Some? && Request(f, CollectionOf(Arg(args, 1)).value, args).None? ==>
      outcome == Returned(false) && unchanged(bridge) && unchanged(host)
    ensures var c := CollectionOf(Arg(args, 1));
      c.Some? && Request(f, c.value, args).Some? ==>
        var op, fn := Request(f, c.value, args).value, Arg(args, CallbackSlot(f));
        outcome == Returned(accepted) &&
        callback.Some? == fn.Function? &&
        (callback.Some? ==> callback.value !in old(host.registry) && host.registry == old(host.registry)[callback.value := fn]) &&
        (callback.None? ==> host.registry == old(host.registry)) &&
        bridge.pending == old(bridge.pending) + (if fn.Function? then 1 else 0) &&
        bridge.inFlight == (if accepted then old(bridge.inFlight) + [Job(op, callback, None)] else old(bridge.inFlight)) &&
        bridge.callbackQueue == old(bridge.callbackQueue) &&
        (fn.Function? ==> bridge.hookRegistered &&
                          host.hookInstalled == (old(host.hookInstalled) || !old(bridge.hookRegistered))) &&
        (!fn.Function? ==> bridge.hookRegistered == old(bridge.hookRegistered) && host.hookInstalled == old(host.hookInstalled))
    ensures host.invocations == old(host.invocations) && host.released == old(host.released)
    ensures old(Coupled(bridge, host)) ==> Coupled(bridge, host)
  {
    callback := None;
    var c := CollectionOf(Arg(args, 1));
    if c.None? {
      return Raised(NullUserdataMessage), callback;
    }
    var op := BuildRequest(f, c.value, args);
    if op.None? {
      return Returned(false), callback;
    }
    var fn := Arg(args, CallbackSlot(f));
    var reference := TakeCallback(bridge, host, fn);
    callback := reference;
    var job := Job(op.value, reference, None);
    var submitted := bridge.SubmitJob(job, accepted);
    outcome := Returned(submitted.Success?);
    if old(Coupled(bridge, host)) {
      LiveAfterCall(old(host.registry), old(bridge.inFlight), old(bridge.callbackQueue), job, fn, accepted);
      CallbackJobsSnoc(old(bridge.inFlight), job);
    }
  }
}

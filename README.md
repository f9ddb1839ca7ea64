# gmsv_mongo: a Dafny model of the asynchronous job bridge

gmsv_mongo is a Garry's Mod server module, written in Rust, that gives Lua
scripts a MongoDB client. This project models its core and proves
properties of the model:

- **The asynchronous job bridge.** A Lua call builds a `Job` and submits it
  to a worker. The worker runs the database operation and attaches a
  `JobResult`. If the job carries a callback, the worker forwards it to a
  callback queue. A `Think` hook drains that queue on the game thread,
  calls each callback with `(err, value)` and gives its registry
  reference back.
- **The bookkeeping around it.** A counter of pending callbacks, a
  hook-registered flag and the queues are modelled as the fields of one
  class, `Worker.JobBridge`. Each source operation is one atomic method on
  it. The Lua state is modelled by `Host.LuaState`: its registry of
  references, its installed hook and a log of callback calls.
- **Request building** for the ten `*_async` functions: argument
  conversion, the optional callback, the list arguments read from index 1
  up to the first nil, `$group` normalisation, and the boolean the call
  returns.
- **The mapping between Lua and BSON values.** This covers array detection,
  key rules, the `ObjectId(<hex>)` string form, the
  `{__bson_type = "date", timestamp = ms}` table form, and the rejected
  types.
- **Two small pure pieces:** the connection configuration (its defaults,
  the scheme check and the builder steps) and the worker-thread clamp.

## Modules

| file | models |
|---|---|
| `wrappers.dfy` | `Option`, `Result`, `Unit` |
| `bson.dfy` | BSON values and documents as ordered fields; the hex form of an ObjectId |
| `lua.dfy` | Lua values; tables as ordered entry lists, raw look-up and the length operator; the decimal form of numbers |
| `conversion.dfy` | `src/types/conversion.rs` (value functions and the three loops) |
| `stack_probe.dfy` | the Lua stack, used only to state the findings below about `conversion.rs` as written |
| `worker.dfy` | `src/core/worker.rs`: job types, the Find and Aggregate collect loops, result routing, the `JobBridge` class |
| `host.dfy` | the Lua registry, `hook.Add` and `hook.Remove`, and `lua_pcall` as seen by the bridge |
| `callbacks.dfy` | `src/api/callbacks.rs`: `push_job_result`, `listen`, `deafen`, `poll_callbacks` |
| `collection_async.dfy` | `src/api/collection_async.rs` |
| `config.dfy` | `src/config/mod.rs` |
| `runtime.dfy` | `src/core/runtime.rs` |
| `scenarios.dfy` | journeys made of the steps above, such as a `find` with limit 0 from call to callback |

### Environment inputs

Whatever the code obtains from outside becomes a parameter of the step
that uses it:

- `SubmitJob(job, accepted)`: whether the job channel accepted the send.
- `ProcessJob(i, reply, delivered)`: which in-flight job completes next,
  the database's reply as a `Reply` value, and whether the lock and send
  onto the callback queue succeeded.
- `PollCallbacks(..., sendersGone)`: whether `try_recv` reports
  `Disconnected` rather than `Empty` once the queue is empty.

A database cursor is a sequence of `Fetch` values, each a document or a
stream error.

### Invariant

`JobBridge.Valid()` states the lifecycle invariant:

`pending == (callback jobs in flight) + |callbackQueue| + stranded`

`stranded` is a ghost count of callback jobs that stay counted but can
never be drained. A job becomes stranded when its submit send fails, when
its delivery fails, or when a poll ends on `Disconnected`.

`Callbacks.Coupled(bridge, host)` ties the bridge to the Lua state. It
holds when both are valid and:

- the hook-registered flag matches the installed hook;
- the hook is installed while a callback job is in flight or queued;
- every in-flight or queued callback reference names a function in the
  registry, and no two of them are alike.

`AsyncCall` keeps it, and so does a `process_job` step (`CompleteJob`) and
a poll that ends on `Empty`. As a result, the precondition of
`EveryCallbackOnce` holds before every poll of a coupled state.

## Model

| member | source | states |
|---|---|---|
| Worker.JobBridge.constructor | src/core/worker.rs:9-19 | the counter starts at 0, the flag clear and both queues empty, and the invariant holds |
| Worker.JobBridge.SubmitJob | src/core/worker.rs:91-98 | the counter grows by exactly 1 when the job has a callback and is unchanged otherwise, and this increment happens even when the send fails; the result is Ok exactly when the send is accepted, otherwise the error "Failed to submit job: " followed by the send error; only an accepted job joins the in-flight jobs; the invariant is kept |
| Worker.JobBridge.ProcessJob | src/core/worker.rs:222-227 | the completed job leaves the in-flight jobs; it joins the end of the callback queue, with its result set to the outcome, exactly when it has a callback and delivery succeeds; fire-and-forget jobs never reach the queue; the counter and flag are untouched; the invariant is kept |
| Worker.JobBridge.ShouldRegisterHook | src/core/worker.rs:246-248 | the answer is true exactly when the flag was clear, and the flag is set afterwards |
| Worker.JobBridge.MarkHookUnregistered | src/core/worker.rs:250-252 | the flag is clear afterwards |
| Worker.JobBridge.GetCallbacksPending | src/core/worker.rs:238-240 | returns the counter |
| Worker.JobBridge.DecreaseCallbacksPending | src/core/worker.rs:242-244 | subtracts the count; when the count exceeds the counter, the usize subtraction wraps modulo 2^64 |
| Worker.JobBridge.TryRecv | src/api/callbacks.rs:19 | takes the head of the callback queue (FIFO); on an empty queue it answers Empty, or Disconnected when the senders are gone, and leaves the queue empty |
| Worker.HookFlagProtocol | src/core/worker.rs:246-252 | after a clear, the first test-and-set answers true and the second false; after another clear, the next answers true again |
| Worker.Docs | src/core/worker.rs:130-131 | at most one document per fetch, and exactly one per fetch on a cursor without errors |
| Worker.FirstError | src/core/worker.rs:127-128 | every fetch before the returned position is a document, and the position is the first stream error if there is one |
| Worker.Wanted | src/core/worker.rs:132-135 | the stop count is at least 1, and equal to the limit when the limit is positive |
| Worker.CollectedBounds | src/core/worker.rs:118-143 | a collection is a prefix of the cursor's documents, no longer than the limit asks for, or else the message of the cursor's first failing step |
| Worker.DocsSnoc | src/core/worker.rs:130-131 | one more fetch adds its document at the end, if it is one |
| Worker.DocsPrefix | src/core/worker.rs:125-139 | the documents of a shorter cursor prefix are a prefix of those of a longer one, so collection preserves cursor order |
| Worker.FirstErrorAfter | src/core/worker.rs:125-139 | when a prefix is error-free, the first error lies at or after its end |
| Worker.FullCursor | src/core/worker.rs:205-215 | an error-free cursor yields one document per fetch |
| Worker.LimitReached | src/core/worker.rs:132-135 | once the documents collected reach the stop count, the result is exactly those documents, whatever follows in the cursor |
| Worker.Exhausted | src/core/worker.rs:125-139 | an error-free cursor shorter than the stop count yields all its documents |
| Worker.CollectFind | src/core/worker.rs:125-139 | the Find loop (push, bump the count, break at the limit; any stream error aborts) returns exactly the specified collection result |
| Worker.CollectAll | src/core/worker.rs:205-215 | the Aggregate loop returns every cursor document in order, or the first stream error |
| Worker.FindWithLimit | src/core/worker.rs:125-139 | with a limit on an error-free cursor of n documents, the result is the first min(n, max(limit, 1)) documents, in order |
| Worker.NonPositiveLimitTakesOne | src/core/worker.rs:132-135 | a limit of 0 or less still yields the first document, because the break is tested only after a push |
| Worker.ErrorDropsDocuments | src/core/worker.rs:122-128 | a stream error reached before the limit makes the whole result that error, and the documents already collected are dropped |
| Worker.U64AsI64 | src/core/worker.rs:193-200 | the `as i64` cast of a u64 count keeps values up to i64::MAX and wraps larger ones by 2^64 |
| Worker.Outcome | src/core/worker.rs:101-220 | the result variant always matches the operation variant, one for one |
| Worker.Execute | src/core/worker.rs:100-220 | the routing of `process_job` computes exactly the specified outcome |
| Worker.CallbackJobs | src/core/worker.rs:92-94 | the number of callback-bearing jobs is at most the number of jobs |
| Worker.CallbackJobsSnoc | src/core/worker.rs:92-94 | appending a job adds 1 to the count exactly when the job has a callback |
| Worker.CallbackJobsRemove | src/core/worker.rs:222-227 | removing any one job lowers the count by 1 exactly when that job has a callback |
| Worker.DistinctRemove | src/core/worker.rs:222-227 | taking one job out keeps the callback references distinct, and no remaining job carries the removed job's reference |
| Worker.DistinctSnoc | src/core/worker.rs:91-98 | appending a job whose reference no job carries keeps the references distinct |
| Host.LuaState.constructor | src/core/worker.rs:6-7 | the registry is empty, no hook is installed, and nothing has been called or released |
| Host.LuaState.Ref | src/api/collection_async.rs:36-37 | `luaL_ref` stores the value under a reference no live entry uses |
| Host.LuaState.RawGet | src/api/callbacks.rs:25 | reads the registry entry, nil when absent |
| Host.LuaState.Unref | src/api/callbacks.rs:51 | removes the entry and records the release |
| Host.LuaState.PCall | src/api/callbacks.rs:43-48 | records one call with its two arguments |
| Host.LuaState.HookAddCall | src/api/callbacks.rs:171-179 | the hook is installed exactly when the Think/gmsv_mongo_async pair is added |
| Host.LuaState.HookRemoveCall | src/api/callbacks.rs:181-191 | removing that pair uninstalls the hook; the call is logged |
| Callbacks.ListTable | src/api/callbacks.rs:104-119 | builds one table entry per value |
| Callbacks.ListTableGet | src/api/callbacks.rs:104-119 | index k of the list holds the k-th value, and every other index is nil |
| Callbacks.ListTableLength | src/api/callbacks.rs:88-119 | the list's length is the number of values |
| Callbacks.Strings | src/api/callbacks.rs:88-103 | one Lua string per id |
| Callbacks.Tables | src/api/callbacks.rs:104-119 | one Lua table per document |
| Callbacks.PushJobResult | src/api/callbacks.rs:74-169 | for every variant, an error e gives (e, nil); on success the value is the id string for `insert_one`, the list of ids for `insert_many`, the list of document tables for `find` and `aggregate`, the document table for a `find_one` match, and the count as a number for the update, delete and count variants; the value is nil only for a `find_one` that found nothing |
| Callbacks.TablesListed | src/api/callbacks.rs:104-119 | a list of documents holds the k-th document as a table at index k, and its length is their number |
| Callbacks.DocumentsListed | src/api/callbacks.rs:104-119 | the found or aggregated documents arrive as a list whose k-th element is the k-th document as a table, and whose length is their number |
| Callbacks.IdsListed | src/api/callbacks.rs:88-103 | the inserted ids arrive as a list of strings, in order |
| Callbacks.CallbackArgs | src/api/callbacks.rs:33-41 | a job without a result gets (nil, "No result"); a failed job gets its error text and nil; a non-nil error is always a string with a nil value; both arguments are nil exactly for a `find_one` that found nothing |
| Callbacks.Listen | src/api/callbacks.rs:171-179 | adds the Think hook under the bridge's identifier, which is then installed |
| Callbacks.Deafen | src/api/callbacks.rs:181-191 | removes the hook and always ends with the flag cleared |
| Callbacks.RunCallback | src/api/callbacks.rs:23-52 | a job's function is called, with its result or (nil, "No result"), only when its registry entry is a function; its reference is released on both paths |
| Callbacks.PollSnoc | src/api/callbacks.rs:18-61 | handling one more job extends the calls, the releases and the registry changes by that job's own |
| Callbacks.DrainQueue | src/api/callbacks.rs:18-61 | the receive loop consumes exactly the jobs queued, in FIFO order, and counts every one, including those whose entry is not a function |
| Callbacks.PollCallbacks | src/api/callbacks.rs:7-72 | the queue is drained and every job counted; on Empty the counter drops by exactly the number processed, and the hook is removed with the flag cleared exactly when something was processed and the counter is then 0; a poll that processes nothing changes neither; on Disconnected the hook is removed and the counter left as it was; the invariant is kept; when the bridge and the Lua state are coupled, the queued callbacks are distinct registered functions (so every one is called once, in order), and on Empty the coupling is kept |
| Callbacks.RegistryAfterKeeps | src/api/callbacks.rs:30-51 | releasing other jobs' references leaves a reference and its value alone |
| Callbacks.RegistryAfterShrinks | src/api/callbacks.rs:30-51 | giving references back only removes registry entries and changes no other |
| Callbacks.EveryCallbackOnce | src/api/callbacks.rs:18-61 | for queued jobs with distinct registered functions, the k-th call is the k-th job's function with its own arguments, and each reference is released exactly once, in queue order |
| Callbacks.SkippedJob | src/api/callbacks.rs:28-31 | a job whose entry is not a function calls nothing but still has its reference released |
| Callbacks.LiveAfterCall | src/api/collection_async.rs:34-61 | taking a fresh reference to a function for a new job, and submitting it, keeps every in-flight and queued reference naming a function, no two alike |
| Callbacks.LiveAfterComplete | src/core/worker.rs:222-227 | completing any in-flight job, whether it is queued with its result or dropped, keeps the references live and distinct |
| Callbacks.LiveAfterPoll | src/api/callbacks.rs:18-61 | before a poll, the queued callbacks are distinct registered functions, and releasing their references leaves those of in-flight jobs naming their functions |
| Callbacks.CompleteJob | src/core/worker.rs:222-227 | `process_job` keeps the bridge and the Lua state coupled: the flag matches the installed hook, the hook is installed while a callback job is in flight or queued, and every such job's reference names its function |
| CollectionAsync.CollectionOf | src/utils/luautils.rs:12-22 | the first argument names a collection exactly when it is userdata with a non-null pointer |
| CollectionAsync.LimitArg | src/api/collection_async.rs:149-153 | a limit is present exactly when argument 3 is a number or a string Lua reads as a number; its value is that number saturated to i64, and for a number in the i64 range the number itself |
| CollectionAsync.PaddedLimit | src/api/collection_async.rs:149-153 | a number's text with white space around it, such as `" 5 "`, is a limit of that number |
| CollectionAsync.UpsertArg | src/api/collection_async.rs:256-260 | upsert holds exactly when argument 4 is the boolean true, so it defaults to false |
| CollectionAsync.CallbackSlot | src/api/collection_async.rs:34-40 | the callback is argument 3, 4 or 5 depending on the function |
| CollectionAsync.PresentWithinLength | src/api/collection_async.rs:78-100 | consecutive non-nil indices from 1 never run past the table's length |
| CollectionAsync.ListFromSome | src/api/collection_async.rs:78-100 | a list read on from index i keeps the earlier elements and appends the conversions of elements i up to the length, in index order |
| CollectionAsync.ListFromNone | src/api/collection_async.rs:88-95 | a list read on from index i is refused exactly when one of the elements i up to the length does not convert |
| CollectionAsync.ListFromStep | src/api/collection_async.rs:78-100 | one step of the index loop: a nil element ends the list, an element that does not convert ends it with nothing, and otherwise the loop goes on with the converted element appended |
| CollectionAsync.FailureAfter | src/api/collection_async.rs:88-95 | when element i converts, the elements from i on that fail are those from i + 1 on |
| CollectionAsync.DocumentListSpec | src/api/collection_async.rs:504-526 | the list read from indices 1, 2, ... up to the first nil holds one document per element, in index order, and fails exactly when an element does not convert |
| CollectionAsync.ReadDocumentList | src/api/collection_async.rs:78-100 | the `index += 1` loop returns exactly the specified list |
| CollectionAsync.NormaliseStageSpec | src/api/collection_async.rs:529-535 | a `$group` document without `_id` gains `_id: null`, and one that has `_id` keeps it; every other key, every other stage and a non-document `$group` are unchanged |
| CollectionAsync.NormaliseIdempotent | src/api/collection_async.rs:529-535 | normalising a stage twice is the same as normalising it once |
| CollectionAsync.NormaliseGroupStages | src/api/collection_async.rs:529-535 | the in-place loop normalises each stage of the pipeline and keeps their number and order |
| CollectionAsync.Normalised | src/api/collection_async.rs:529-535 | the pipeline keeps its number of stages |
| CollectionAsync.BuildRequest | src/api/collection_async.rs:25-32 | the argument conversions of each function build exactly the specified operation |
| CollectionAsync.Request | src/api/collection_async.rs:25-32 | an operation is built, on the given collection and of the called function's kind, exactly when the document (and for updates the update) converts, or for `insert_many` and `aggregate` exactly when the list argument is a table whose elements all convert |
| CollectionAsync.AggregateGroupsHaveId | src/api/collection_async.rs:528-535 | every `$group` document in a submitted pipeline has `_id` |
| CollectionAsync.InsertManyCount | src/api/collection_async.rs:78-100 | `insert_many` submits one document per element of the list |
| CollectionAsync.BadFilterRefused | src/api/collection_async.rs:25-32 | a document or filter that does not convert means nothing is submitted |
| CollectionAsync.NonTableListRefused | src/api/collection_async.rs:72-76 | a list argument that is not a table means nothing is submitted |
| CollectionAsync.MaybeRegisterHook | src/api/collection_async.rs:10-14 | the hook is added exactly when the flag was clear, and the flag is set afterwards |
| CollectionAsync.TakeCallback | src/api/collection_async.rs:34-40 | a function argument installs the hook when the flag was clear and is stored under a fresh reference; any other argument takes no reference and leaves the registry and hook alone |
| CollectionAsync.AsyncCall | src/api/collection_async.rs:16-61 | a non-collection raises the userdata error and an argument that does not convert returns false, both with nothing changed; otherwise the call returns true exactly when the submit succeeds. A reference is taken, and the hook registered, exactly when the callback argument is a function. The counter grows by 1 exactly then. The new job starts without a result. Nothing is called or released during the call; a call keeps the bridge and the Lua state coupled |
| Conversion.NumberToBson | src/types/conversion.rs:64-71 | a number is an Int64 exactly when it lies in the i64 range |
| Conversion.ObjectIdInner | src/types/conversion.rs:89-94 | the hex text between `ObjectId(` and `)` |
| Conversion.ObjectIdString | src/types/conversion.rs:277-281 | the `ObjectId(<hex>)` text of an id |
| Conversion.StringToBson | src/types/conversion.rs:73-97 | a string is an ObjectId exactly when it has the form `ObjectId(<hex>)` and the hex parses, and is a String otherwise |
| Conversion.KeyString | src/types/conversion.rs:191-218 | string keys are kept, number keys become their decimal text, and any other key is a table conversion error |
| Conversion.NumberKeysDistinct | src/types/conversion.rs:209-211 | distinct number keys give distinct key strings |
| Conversion.ParseDate | src/types/conversion.rs:220-234 | a numeric timestamp gives that DateTime, and anything else is "Invalid date table format" |
| Conversion.TableToBsonValue | src/types/conversion.rs:134-157 | converts to an Array exactly when the table is an array, and to a Document otherwise |
| Conversion.TableToDocument | src/types/conversion.rs:19-51 | a non-table fails with TypeConversion("table", its type name) |
| Conversion.EntriesToDocKeys | src/types/conversion.rs:19-51 | a completed traversal keeps the keys it started with and has the key string of every entry it visited, each of which is valid |
| Conversion.ValueKinds | src/types/conversion.rs:53-133 | nil alone becomes null; a table becomes an array, a document or a date; among the other kinds exactly functions, userdata, light userdata and threads are refused, with their type's name |
| Conversion.LuaTableIsArray | src/types/conversion.rs:159-189 | the key scan answers exactly the array test: the length is positive and every key is an integer in 1..length |
| Conversion.LuaTableToBson | src/types/conversion.rs:19-51 | the traversal loop returns exactly the specified document or the first error |
| Conversion.LuaTableToBsonValue | src/types/conversion.rs:134-157 | the `for i in 1..=len` loop returns exactly the specified array or document |
| Conversion.SetFieldKeys | src/types/conversion.rs:236-247 | a field store adds at most its own key |
| Conversion.SetFieldUnique | src/types/conversion.rs:236-247 | storing a field keeps the table's keys distinct |
| Conversion.SetFieldGet | src/types/conversion.rs:236-247 | after a store, the key reads back the stored value and every other key is unchanged |
| Conversion.DateTable | src/types/conversion.rs:283-293 | the date table holds the `__bson_type` tag "date" and the timestamp |
| Conversion.BsonToLua | src/types/conversion.rs:250-305 | null, undefined and unsupported kinds become nil exactly; the three number kinds become numbers exactly; documents, arrays and dates become tables exactly |
| Conversion.DocEntries | src/types/conversion.rs:236-247 | the table built from a document's fields has distinct keys, all strings |
| Conversion.ArrayEntries | src/types/conversion.rs:269-275 | the table built from an array's items has distinct keys |
| Conversion.DocToLua | src/types/conversion.rs:236-247 | a document becomes a table whose keys are distinct strings |
| Conversion.DocEntriesAgree | src/types/conversion.rs:236-247 | the document loop is the generic field loop with `bson_value_to_lua` as the conversion |
| Conversion.ArrayEntriesAgree | src/types/conversion.rs:269-275 | the array loop is the generic item loop with `bson_value_to_lua` as the conversion |
| Conversion.FieldEntriesUnique | src/types/conversion.rs:236-247 | storing fields keeps the table's keys distinct |
| Conversion.FieldEntriesStep | src/types/conversion.rs:236-247 | one more field: its name reads its converted value, other names read what they read before |
| Conversion.FieldEntriesRead | src/types/conversion.rs:236-247 | after the first n fields, with distinct names, each name reads the conversion of its field's value and every other name reads nil |
| Conversion.LookupLast | src/types/conversion.rs:236-247 | with distinct names, the n-th field answers for its own name among the first n, and the earlier ones answer for every other name |
| Conversion.ItemEntriesUnique | src/types/conversion.rs:269-275 | storing items keeps the table's keys distinct |
| Conversion.ItemEntriesStep | src/types/conversion.rs:269-275 | one more item: its index reads it, other numbers read what they read before |
| Conversion.ItemEntriesRead | src/types/conversion.rs:269-275 | after the first n items, index k reads item k - 1 for k in 1..n and nil elsewhere |
| Conversion.DocToLuaFields | src/types/conversion.rs:236-247 | a document with distinct field names arrives as a table that reads, under each name, the Lua form of that field's value, and nil under every other name |
| Conversion.ArrayToLuaItems | src/types/conversion.rs:269-275 | an array arrives as a table that reads item k - 1 under index k, for k in 1..length, and nil under every other number |
| Conversion.ArrayItemsAgree | src/types/conversion.rs:145-152 | the array loop reads each element i with a raw look-up (nil for a missing one) and converts it |
| Conversion.ItemsFromSpec | src/types/conversion.rs:145-152 | the array loop converts elements i..n in index order, or fails with the error of the first element that does not convert |
| Conversion.ArrayConversion | src/types/conversion.rs:141-152 | an array table converts to the array of its elements 1..length, in order |
| Conversion.ItemsFromFails | src/types/conversion.rs:145-152 | the array loop fails exactly when one of the elements it reads does not convert |
| Conversion.ArrayConversionFails | src/types/conversion.rs:145-152 | an array table fails to convert exactly when one of its elements fails |
| Conversion.ArrayKeysExact | src/types/conversion.rs:159-189 | the keys of an array table are exactly 1..length |
| Conversion.EmptyTableIsDocument | src/types/conversion.rs:141-156 | the empty table is not an array and becomes an empty document |
| Conversion.BadKeyFails | src/types/conversion.rs:211-216 | a key that is neither a string nor a number fails the whole document, wherever it appears |
| Conversion.KeyCollision | src/types/conversion.rs:30-48 | for every number n and any two convertible values, a number key n and the string of its digits name the same field, and the later entry wins |
| Conversion.NilNull | src/types/conversion.rs:57 | nil becomes null; null, undefined and every unsupported kind become nil |
| Conversion.RejectedKinds | src/types/conversion.rs:125-130 | among non-tables, exactly functions, userdata, light userdata and threads are rejected, with TypeConversion naming their type ("unknown" for light userdata) |
| Conversion.ObjectIdLuaRoundTrip | src/types/conversion.rs:277-281 | an ObjectId goes to Lua as `ObjectId(<hex>)` and converts back to the same ObjectId |
| Conversion.ObjectIdStringNormalised | src/types/conversion.rs:89-94 | an ObjectId string comes back with its hex digits in lower case |
| Conversion.StringRoundTrip | src/types/conversion.rs:73-97 | any other NUL-free string survives the trip to Lua and back |
| Conversion.DateRoundTrip | src/types/conversion.rs:283-293 | a DateTime goes to Lua as the date table, which converts back to the same DateTime |
| Conversion.DateWithoutTimestamp | src/types/conversion.rs:220-234 | a date table without a numeric timestamp is "Invalid date table format" |
| Conversion.NumberRoundTrip | src/types/conversion.rs:256-258 | numbers keep their value both ways, and an Int32 comes back as an Int64 |
| StackProbe.ProbeReadsKey | src/types/conversion.rs:100-101 | as written, the tag look-up with index -1 reads the pushed key string, so every table takes the generic branch |
| StackProbe.OtherTagPoppedTwice | src/types/conversion.rs:107-114 | with an absolute index, a string tag other than "date" would be popped twice, taking the table off the stack |
| StackProbe.DateParseReadsKey | src/types/conversion.rs:221-222 | as written, parsing a date table always fails |
| StackProbe.DateTableLength | src/types/conversion.rs:283-293 | the date table has length 0, so it is never taken for an array |
| StackProbe.DateTableAsDocument | src/types/conversion.rs:134-157 | the generic conversion turns the date table into a document of the tag and the timestamp |
| StackProbe.DateLostAsWritten | src/types/conversion.rs:99-113 | as written, a date table becomes a plain document, where the intended result is the DateTime |
| StackProbe.TableBranchFixed | src/types/conversion.rs:99-123 | the corrected branch leaves the stack as it was |
| StackProbe.FixedBranchDecides | src/types/conversion.rs:99-113 | the corrected branch parses a date exactly for date-tagged tables |
| StackProbe.NumberBoundAsWritten | src/types/conversion.rs:66-67 | as written, 2^63 passes the bound and is stored as i64::MAX |
| StackProbe.NumberBoundOnlyDiffersAtTop | src/types/conversion.rs:66-67 | for every other number, the bound as written agrees with the corrected one |
| Bson.SaturateI64 | src/api/collection_async.rs:149-150 | the float-to-int `as i64` cast clamps into the i64 range |
| Bson.Keys | src/types/conversion.rs:236-247 | the key set of a document |
| Bson.Lookup | src/api/collection_async.rs:530-531 | a key is found exactly when it is present, with a value of that key |
| Bson.Insert | src/api/collection_async.rs:532 | inserting keeps the fields' number when the key exists and adds one field otherwise, and the key set gains exactly the key |
| Bson.LookupInsert | src/api/collection_async.rs:532 | after an insert, the key reads the new value and other keys are unchanged |
| Bson.InsertFresh | src/api/collection_async.rs:532 | a new key is appended at the end |
| Bson.HexRoundTrip | src/types/conversion.rs:277-281 | hex decoding inverts hex encoding |
| Bson.HexEncodeLower | src/types/conversion.rs:296 | `hex::encode` writes lower-case hex digits only |
| Bson.HexDecodeDigits | src/types/conversion.rs:89-94 | text that decodes holds hex digits only |
| Bson.HexDecodeEncode | src/types/conversion.rs:89-94 | re-encoding decoded hex gives the input in lower case |
| Bson.ParseObjectIdHex | src/types/conversion.rs:89-94 | a parsed ObjectId comes from 24 hex digits |
| Bson.ObjectIdHexRoundTrip | src/types/conversion.rs:89-94 | an ObjectId's 24-digit hex parses back to the same ObjectId |
| Bson.ParseObjectIdHexPrints | src/types/conversion.rs:89-94 | a parsed ObjectId prints as its input in lower case |
| Lua.Get | src/types/conversion.rs:146 | a non-nil look-up result is an entry of the table |
| Lua.Typename | src/types/conversion.rs:307-319 | the name is "table" exactly for tables and "unknown" exactly for light userdata, which have no name |
| Lua.Length | src/types/conversion.rs:166 | the length is a border: indices 1..n are non-nil and n+1 is nil |
| Lua.LengthUnique | src/types/conversion.rs:166 | the length is the first border |
| Lua.IntToStringParses | src/types/conversion.rs:209-211 | the decimal text of a number parses back to the number |
| Lua.IntToStringInjective | src/types/conversion.rs:209-211 | distinct numbers have distinct decimal texts |
| Lua.PaddedNumber | src/api/collection_async.rs:149-150 | `lua_isnumber` and `lua_tonumber` skip white space before and after the text of a number |
| Lua.UnpaddedNumber | src/api/collection_async.rs:149-150 | text with no white space at either end reads as the number its sign and digits give |
| Lua.PaddedIntToString | src/api/collection_async.rs:149-150 | a number's text with a space before it and a newline after it reads back as the number |
| Config.ConnectionConfig.WithAppName | src/config/mod.rs:56-59 | sets the application name and leaves every other field unchanged |
| Config.ConnectionConfig.WithMaxPoolSize | src/config/mod.rs:61-64 | sets the maximum pool size and leaves every other field unchanged |
| Config.ConnectionConfig.WithMinPoolSize | src/config/mod.rs:66-69 | sets the minimum pool size and leaves every other field unchanged |
| Config.ConnectionConfig.WithServerSelectionTimeout | src/config/mod.rs:71-74 | sets the server selection timeout and leaves every other field unchanged |
| Config.ConnectionConfig.WithConnectTimeout | src/config/mod.rs:76-79 | sets the connect timeout and leaves every other field unchanged |
| Config.ConnectionConfig.WithTls | src/config/mod.rs:81-84 | sets the TLS flag and leaves every other field unchanged |
| Config.ConnectionConfig.WithRetryWrites | src/config/mod.rs:86-89 | sets retry writes and leaves every other field unchanged |
| Config.ConnectionConfig.WithRetryReads | src/config/mod.rs:91-94 | sets retry reads and leaves every other field unchanged |
| Config.Default | src/config/mod.rs:21-37 | the default values, field by field |
| Config.New | src/config/mod.rs:41-54 | succeeds exactly for a `mongodb://` or `mongodb+srv://` prefix, storing the string as given with every other field at its default; otherwise InvalidConnectionString with the scheme message |
| Config.DefaultStringRefused | src/config/mod.rs:24 | the default, empty connection string does not pass `new` |
| Config.NewExamples | src/config/mod.rs:124-134 | the valid and invalid connection strings of the unit tests |
| Config.BuilderPattern | src/config/mod.rs:136-147 | a chained builder reads back each value it set, and the untouched fields keep their defaults |
| Config.SettersCommute | src/config/mod.rs:56-94 | any two builder steps on different fields give the same configuration in either order |
| Config.LastStepWins | src/config/mod.rs:56-94 | any two builder steps on the same field give the configuration of the later step alone |
| Runtime.Clamp | src/core/runtime.rs:20 | the result lies in the band, equals x inside it, and is the nearer bound outside it |
| Runtime.NumCpus | src/core/runtime.rs:16-21 | always between 4 and 16; 4 when the parallelism is unknown; the parallelism itself inside the band, and the nearer bound outside it |
| Runtime.NumCpusMonotone | src/core/runtime.rs:16-21 | more parallelism never gives fewer workers |
| Scenarios.FindWithZeroLimit | src/api/collection_async.rs:133-183 | a `find` with limit 0 on a two-document cursor ends with exactly one callback call, which receives nil and a list holding the first document, and one reference released |
| Scenarios.SubmitZeroLimitFind | src/api/collection_async.rs:133-183 | a `find` call with limit 0 and a callback puts one job in flight, counted once, holds a fresh reference to the callback, installs the hook, and leaves the bridge and the Lua state coupled |
| Scenarios.ProcessTwoDocuments | src/core/worker.rs:118-143 | on a two-document cursor, that job completes with the first document only and is queued, and the coupling is kept |
| Scenarios.PollOne | src/api/callbacks.rs:7-72 | the poll then calls the callback once, releases its reference, leaves nothing pending, removes the hook and keeps the coupling |
| Scenarios.BadFilterChangesNothing | src/api/collection_async.rs:446-460 | `count_documents_async` with a filter that is not a table returns false, with nothing pending, no hook and no reference |
| Scenarios.NotACollectionRaises | src/api/collection_async.rs:356-360 | `delete_one_async` on something that is not a collection raises the userdata error |

## Left out

- Concurrency is not modelled. That covers tokio tasks, `spawn_worker`, the mpsc channels, the mutex and the atomic orderings. Each source step is one atomic method call. The outcomes of sends, the lock and `try_recv` are parameters.
- The lock-failure path of `poll_callbacks` (src/api/callbacks.rs:8-14) is left out: it only logs and returns.
- `fetch_add` wrap-around in `submit_job` needs 2^64 pending callbacks, which cannot happen, so the counter is an unbounded `nat` for increments.
- Callbacks.PollCallbacks: the `Disconnected` case is decided after the queue is drained (`sendersGone` applies once the queue is empty). This matches `try_recv`, which returns queued data before `Disconnected`. The sender lives in the same static as the receiver, so this case cannot actually arise.
- Callbacks.PollCallbacks: after a poll that ends on `Disconnected`, the coupling is not promised, because the hook is removed while callback jobs may still be in flight.
- Callbacks.PollCallbacks returns the number processed for the model's use. The Lua function returns 0 results.
- Floating point is not modelled; Lua numbers are integers.
  - So the `fract()` test's Double branch, f64 rounding above 2^53 and the f64 timestamp cast are left out.
  - `Double` in BSON is kept only as a value kind that arrives in Lua as a number.
- The NUL-byte panics of `CString::new(...).unwrap()` are left out. In the model, error strings and ids are pushed verbatim.
- UTF-8 checks and raw userdata pointer reads are left out. A collection is an abstract id.
- `lua_isnumber` and `lua_tonumber` on a string are modelled as skipping white space around the text and then accepting only an optional sign followed by decimal digits. Every other string form Lua reads as a number is left out, and the model reads it as no number: hex (`0x10`), exponents (`1e3`), decimal points (`2.5`), and the infinity and NaN words. So `find_async` with such a string as its limit returns every document in the model, where the code would apply a limit.
- Lua tables are entry lists in `lua_next` order. Metatables and cyclic tables are left out. The length operator is modelled as the first border; real Lua may report any border of a table with holes.
- `luaL_ref` is modelled as returning a fresh reference. Lua's free-list reuse of released references is left out.
- References of jobs whose submit or delivery failed are never released. The code leaks them, and the model shows this through the ghost `stranded` count.
- The MongoDB driver is abstract: each call's answer is a `Reply` value and each cursor a sequence of fetches.
- The Display text of ObjectId ids inserted by `insert_many` is abstract, and so is the order of its id map.
- Worker.JobBridge.SubmitJob: the send error's debug text is the constant `SendError { .. }`.
- What a callback does when it runs is not modelled: its side effects, re-entrancy, and the logging of pcall errors.
- Logging throughout is left out.
- `ConnectionConfig::to_client_options` builds driver options and is left out.
- The synchronous wrappers in `src/api/collection.rs`, `database.rs` and `client.rs` are not part of this model. Neither are `src/lib.rs`, `src/updatecheck.rs`, `src/error/mod.rs` and the documentation site.
- The documented behaviour says a caller releases the callback reference when a submit fails. The code does not release it, and the model follows the code.

## Findings

| source | as written | input that shows it | evidently intended | confidence | as-written member | corrected member |
|---|---|---|---|---|---|---|
| src/types/conversion.rs:100-101 | the table branch pushes `"__bson_type"` and then calls `lua_gettable(l, index)` with the caller's index, which is -1, so it looks the key up in the pushed string instead of the table. The same slip is in `parse_date_table` (lines 221-222). A latent second fault: a string tag other than "date" is popped twice (lines 107 and 114). | `{__bson_type = "date", timestamp = 0}`, the table that `bson_value_to_lua` makes for DateTime(0): it converts to a document with two fields instead of DateTime(0) | look the tag up in the table itself and leave the stack balanced, so date tables become DateTimes and the DateTime round trip holds | high (not executed) | StackProbe.DateLostAsWritten | StackProbe.FixedBranchDecides |
| src/types/conversion.rs:66-67 | the integer test `value.abs() <= (i64::MAX as f64)` compares with i64::MAX rounded to 2^63, so 2^63 passes, and `value as i64` saturates it to 2^63 - 1 | the Lua number 2^63 | only numbers in the i64 range become Int64; 2^63 stays a Double | medium (not executed) | StackProbe.NumberBoundAsWritten | Conversion.NumberToBson |

For the first finding, StackProbe.ProbeReadsKey and StackProbe.DateParseReadsKey state the two slips as written, and StackProbe.OtherTagPoppedTwice the latent one. `Conversion.ValueToBson` uses the corrected decision, and Conversion.DateRoundTrip is proved about it. For the second finding, StackProbe.NumberBoundOnlyDiffersAtTop shows that 2^63 is the only input on which the two tests differ, and Conversion.NumberRoundTrip is proved about the corrected test.

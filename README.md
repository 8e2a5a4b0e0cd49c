# Collocated invocation and the plug-in manager of the Ice C# run time

This project models two stateful components of the Ice C# run time and proves properties about them.

The first is the **collocated request handler**. It is the path a proxy invocation takes when the target servant lives in the same process. The handler keeps three things:

- a request-id counter;
- a table from outgoing call objects to the id they were registered with, for calls not yet confirmed as sent;
- a table from ids to the call that awaits a reply.

It also increments and decrements the hosting object adapter's *direct count*, which keeps the adapter's thread pool alive while collocated work is outstanding. Each locked region is modelled as one atomic step:

- module `CollocatedState` describes each step as a function on a value, `HandlerState`, and proves the step's properties there;
- class `CollocatedHandler.CollocatedRequestHandler` holds the counter and the tables as fields, updated in place;
- its methods are proved to move `State()` by exactly those steps;
- the adapter is an object of its own (`CollocatedHandler.Adapter`);
- header patching rewrites an `array<byte>` in place.

The second is the **plug-in manager** of a communicator. It consists of:

- a process-wide, first-registration-wins factory table (`PluginManager.FactoryTable`);
- an ordered list of named plug-ins with a duplicate check;
- initialization in load order, with a rollback that destroys the already initialized plug-ins in reverse order;
- destruction in reverse order, safe to repeat;
- loading from `Ice.Plugin.*` properties. The `.clr` key beats the plain key, `.cpp` and `.java` keys are dropped, the factories registered to load on initialization are loaded first, then the names in `Ice.PluginLoadOrder`, then every remaining plug-in, and entry points are split into an assembly name and a class name, with drive-letter paths handled specially.

The read-only logic sits in `PluginConfig`. The shape of the initialize and destroy calls is in `PluginLifecycle`. The classes are in `PluginManager`. The calls made on plug-in objects are recorded in the manager's `calls` field, so the order of initialization, rollback and destruction can be stated.

Collaborators are parameters:

- the servant dispatch is a `DispatchOutcome`;
- the outgoing call's `exception()`, `response()` and `sent()` answers are booleans;
- a plug-in's `initialize` and `destroy` are total functions from plug-in to outcome;
- reflection, the argument tokenizer, the factories' `create` and an exception's `ToString()` text are the total functions of a `Loader`;
- the communicator's properties are a `map<string, string>`;
- `Ice.PluginLoadOrder` is the list of names it yields.

## Model

| member | source | states |
|---|---|---|
| Wire.DecodeEncode | csharp/src/Ice/CollocatedRequestHandler.cs:13-17 | reading back the four little-endian two's-complement bytes written for a 32-bit int gives that int |
| Wire.EncodeDecode | csharp/src/Ice/CollocatedRequestHandler.cs:13-17 | every four bytes are the image of the int they decode to, so the encoding is a bijection |
| Wire.RewriteInt | csharp/src/Ice/CollocatedRequestHandler.cs:13-17 | rewriting an int keeps the buffer's length, puts the int's image at the position and leaves every other byte as it was |
| Wire.RewriteThenRead | csharp/src/Ice/CollocatedRequestHandler.cs:13-17 | after a rewrite, the field at that position reads back as the value written |
| CollocatedState.ScheduleTable | csharp/src/Ice/CollocatedRequestHandler.cs:175-204 | the unit of work goes to the thread pool exactly when the call is asynchronous, one-way or has an invocation timeout; otherwise to the dispatcher exactly when one is configured; otherwise it runs on the calling thread |
| CollocatedState.RegisterSucceeds | csharp/src/Ice/CollocatedRequestHandler.cs:150-166 | registration succeeds exactly when the adapter is active, the call is not canceled and not already registered. A two-way id is counter+1, greater than every id in either table. One-way calls get id 0 and leave the reply table alone. The call is entered with its id and the direct count goes up by one |
| CollocatedState.RegisterFails | csharp/src/Ice/CollocatedRequestHandler.cs:150-172 | a failed registration leaves the direct count, the call table and the deactivation flag unchanged. It reports the deactivated adapter, the cancellation or the duplicate call object, in that order of precedence. A duplicate id cannot occur |
| CollocatedState.RegisterKeepsInv | csharp/src/Ice/CollocatedRequestHandler.cs:152-166 | every registration path keeps the handler invariant: ids in use were handed out by the counter, one-way handlers use only id 0, two-way handlers never use id 0 |
| CollocatedState.IdsIncrease | csharp/src/Ice/CollocatedRequestHandler.cs:159-163 | two successive successful two-way registrations get strictly increasing ids |
| CollocatedState.SentOnce | csharp/src/Ice/CollocatedRequestHandler.cs:208-224 | after a "sent" confirmation the call is no longer pending, a second confirmation changes nothing, and confirming a call that is not registered changes nothing |
| CollocatedState.CancelUnknownIsNoop | csharp/src/Ice/CollocatedRequestHandler.cs:37-74 | canceling a call found in neither table changes nothing |
| CollocatedState.CancelAfterSendFrame | csharp/src/Ice/CollocatedRequestHandler.cs:56-72 | canceling a call that was already sent never changes the direct count or the call table, removes at most one reply-table id and leaves the remaining entries as they were |
| CollocatedState.CancelAfterSendUnique | csharp/src/Ice/CollocatedRequestHandler.cs:60-70 | when exactly one reply entry refers to the call, cancel-after-send removes exactly that entry |
| CollocatedState.CancelKeepsInv | csharp/src/Ice/CollocatedRequestHandler.cs:37-74 | cancellation keeps the handler invariant |
| CollocatedState.CompletionEffects | csharp/src/Ice/CollocatedRequestHandler.cs:76-123 | a response retires its id, if present, and releases exactly one direct-count reference. No-response only releases. The error route ignores id 0, retires any other id and leaves the count alone. Retiring twice is the same as retiring once |
| CollocatedState.InvokeAllReleasesOnce | csharp/src/Ice/CollocatedRequestHandler.cs:226-276 | on every path, including refusal by a deactivated adapter and a raised dispatch, invokeAll leaves the direct count one lower. It leaves the call table and counter untouched. It retires the request's id unless a two-way dispatch stayed silent |
| CollocatedState.InvokeAllKeepsInv | csharp/src/Ice/CollocatedRequestHandler.cs:226-276 | invokeAll keeps the handler invariant |
| CollocatedState.DispatchedCallIsBalanced | csharp/src/Ice/CollocatedRequestHandler.cs:144-276 | a call that is registered, confirmed as sent and dispatched restores the direct count and both tables to what they were before submission. This holds even when the adapter is deactivated in between |
| CollocatedState.CanceledBeforeSendIsBalanced | csharp/src/Ice/CollocatedRequestHandler.cs:42-54 | a call canceled before it is sent has its registration undone: count and both tables as before submission, and the call no longer pending |
| CollocatedState.CanceledAfterSendIsBalanced | csharp/src/Ice/CollocatedRequestHandler.cs:56-72 | a call canceled after it is sent has its id retired without a release. The dispatch's answer then finds nothing to complete, and once invokeAll ends the count and tables are as before submission |
| CollocatedState.TracePatchedFields | csharp/src/Ice/CollocatedRequestHandler.cs:228-236 | the traced buffer's size field reads back as the buffer's size. The request-id field reads back as the id when the id is positive and is untouched otherwise. No other byte changes |
| CollocatedHandler.Adapter.IncDirectCount | csharp/src/Ice/CollocatedRequestHandler.cs:254-262 | the increment succeeds exactly when the adapter is not deactivated, and only then raises the count |
| CollocatedHandler.Adapter.DecDirectCount | csharp/src/Ice/CollocatedRequestHandler.cs:275 | the decrement lowers the count by one |
| CollocatedHandler.CollocatedRequestHandler.constructor | csharp/src/Ice/CollocatedRequestHandler.cs:19-30 | a new handler has counter 0, empty tables and the invariant |
| CollocatedHandler.CollocatedRequestHandler.Update | csharp/src/Ice/CollocatedRequestHandler.cs:32-33 | when the handler being replaced is this one, the result is the new handler; when it is another handler, the result is this handler |
| CollocatedHandler.CollocatedRequestHandler.FillInValue | csharp/src/Ice/CollocatedRequestHandler.cs:13-17 | the array afterwards is RewriteInt of its old contents |
| CollocatedHandler.CollocatedRequestHandler.AsyncRequestCanceled | csharp/src/Ice/CollocatedRequestHandler.cs:37-74 | the scan moves the state by the cancellation relation and keeps the invariant. The exception callback runs, asynchronously, exactly when the call was found in a table it is allowed to be found in and its exception() accepted |
| CollocatedHandler.CollocatedRequestHandler.SendResponse | csharp/src/Ice/CollocatedRequestHandler.cs:76-121 | the state moves by Respond. The response callback runs, asynchronously when amd, exactly when the id was awaited and response() accepted. With tracing on, the size field is patched |
| CollocatedHandler.CollocatedRequestHandler.SendNoResponse | csharp/src/Ice/CollocatedRequestHandler.cs:123 | only one direct-count reference is released |
| CollocatedHandler.CollocatedRequestHandler.HandleException | csharp/src/Ice/CollocatedRequestHandler.cs:278-315 | the state moves by Fail. The exception callback runs exactly when the id is awaited and exception() accepted |
| CollocatedHandler.CollocatedRequestHandler.SystemException | csharp/src/Ice/CollocatedRequestHandler.cs:125-131 | the error is routed, then one reference is released, and the result is true |
| CollocatedHandler.CollocatedRequestHandler.InvokeException | csharp/src/Ice/CollocatedRequestHandler.cs:133-138 | the error is routed, then one reference is released |
| CollocatedHandler.CollocatedRequestHandler.SentAsync | csharp/src/Ice/CollocatedRequestHandler.cs:208-224 | it proceeds exactly when the call is still registered and removes it. The sent callback runs only then, and only if sent() accepted |
| CollocatedHandler.CollocatedRequestHandler.PatchHeader | csharp/src/Ice/CollocatedRequestHandler.cs:228-234 | the buffer is rewritten in place to TracePatched of its old contents |
| CollocatedHandler.CollocatedRequestHandler.Incoming | csharp/src/Ice/CollocatedRequestHandler.cs:264-266 | it routes a dispatch's reply, no-reply, system exception or raised local exception to the matching response-sink step, and reports whether it raised. The reply buffer is size-patched exactly when the dispatch replied and tracing is on, and is otherwise left as it was |
| CollocatedHandler.CollocatedRequestHandler.DispatchOnce | csharp/src/Ice/CollocatedRequestHandler.cs:254-267 | one pass of the dispatch loop moves the state by DispatchStep. It stops the loop exactly when the adapter refused the reference or the dispatch raised. The reply buffer is size-patched only when the adapter admitted the dispatch, the dispatch replied and tracing is on |
| CollocatedHandler.CollocatedRequestHandler.InvokeAll | csharp/src/Ice/CollocatedRequestHandler.cs:226-276 | the state moves by InvokeAllState. The request buffer is patched only with tracing on, and reading starts at the request header's length. The reply buffer is size-patched only when the adapter admitted the dispatch, the dispatch replied and tracing is on |
| CollocatedHandler.CollocatedRequestHandler.RegisterCall | csharp/src/Ice/CollocatedRequestHandler.cs:150-172 | the direct-count increment and the locked registration move the state by Register and return its result, so a failure gives the reference back |
| CollocatedHandler.CollocatedRequestHandler.InvokeAsyncRequest | csharp/src/Ice/CollocatedRequestHandler.cs:144-206 | it fails exactly when registration fails, with the same error and state. On success it returns the queued status with the scheduled placement and the id. Run on the calling thread, the state is that of sent-then-invokeAll and the reply buffer is that of invokeAll; otherwise the reply buffer is untouched |
| CollocatedHandler.CollocatedRequestHandler.RunWork | csharp/src/Ice/CollocatedRequestHandler.cs:178-203 | the unit of work dispatches exactly when the call is still registered, with invokeAll's state and reply buffer, and otherwise changes nothing, the reply buffer included |
| PluginConfig.Lookup | csharp/src/Ice/PluginManagerI.cs:542-552 | no plug-in is found exactly when no entry has the name. A found plug-in belongs to the first entry with that name |
| PluginConfig.NamesAt | csharp/src/Ice/PluginManagerI.cs:101-112 | the i-th name is the name of the i-th entry |
| PluginConfig.LookupAfterAdd | csharp/src/Ice/PluginManagerI.cs:136-158 | after appending an absent name, lookup finds the new plug-in under it, and every other name keeps its plug-in |
| PluginConfig.AddKeepsDistinct | csharp/src/Ice/PluginManagerI.cs:136-158 | adding only names that lookup does not find keeps the list's names distinct |
| PluginConfig.IndexOfFrom | csharp/src/Ice/PluginManagerI.cs:408-417 | the result is the first index at or after the start that holds the character, or -1 exactly when there is none |
| PluginConfig.LastIndexOf | csharp/src/Ice/PluginManagerI.cs:305 | the result is the last index holding the character, or -1 exactly when there is none |
| PluginConfig.SplitEntryPointSpec | csharp/src/Ice/PluginManagerI.cs:408-429 | the entry point is the assembly name, a colon and the class name. With a drive path longer than three characters, the split succeeds exactly when a colon occurs from index 3 on, and the assembly keeps the drive prefix with no later colon. Otherwise the split succeeds exactly when there is a colon, at the first one |
| PluginConfig.ResolveKeySpec | csharp/src/Ice/PluginManagerI.cs:210-234 | the `.clr` value takes precedence and consumes both keys. Otherwise the plain value consumes only its key. Only the plug-in's two keys are consumed, and neither is left afterwards |
| PluginConfig.NonEmptyKeeps | csharp/src/Ice/PluginManagerI.cs:254-259 | every load-order name that is kept is non-empty and comes from the list |
| PluginConfig.NonEmptyKeepsAll | csharp/src/Ice/PluginManagerI.cs:254-259 | a load order without empty entries is kept whole, in order |
| PluginConfig.NonEmptyDropsAll | csharp/src/Ice/PluginManagerI.cs:254-259 | a load order of empty entries only loads nothing from it |
| PluginConfig.NonEmptyAppend | csharp/src/Ice/PluginManagerI.cs:254-259 | the names kept from a load order split in two are those kept from the first part followed by those kept from the second, so the loop keeps exactly the non-empty entries, in their order |
| PluginConfig.NonEmptyKeepsEach | csharp/src/Ice/PluginManagerI.cs:254-259 | every non-empty entry of the load order is kept, whatever empty entries surround it |
| PluginConfig.ForPrefix | csharp/src/Ice/PluginManagerI.cs:199-201 | the working copy holds exactly the properties whose key starts with `Ice.Plugin.`, with their values |
| PluginConfig.ClassifyNames | csharp/src/Ice/PluginManagerI.cs:303-331 | the plug-in name a `.clr` or plain key stands for is recovered from it exactly |
| PluginConfig.ClassifySuffixes | csharp/src/Ice/PluginManagerI.cs:305-331 | a last suffix `.cpp` or `.java` is ignored and `.clr` selects the `.clr` entry of the name before it. Any other suffix stays part of the plug-in's name |
| PluginConfig.StepEntrySpec | csharp/src/Ice/PluginManagerI.cs:297-347 | one pass of the drain loop either drops an ignored key, or loads the plug-in the key names. The loaded specification follows the `.clr` precedence, and exactly that plug-in's keys leave the working copy |
| PluginConfig.ResolveAllLoads | csharp/src/Ice/PluginManagerI.cs:210-292 | the i-th loadPlugin call of the first two loops is the i-th name with the specification ResolveKey finds, `.clr` first, in the working copy the names before it left; the copy only loses keys |
| PluginConfig.DrainSnoc | csharp/src/Ice/PluginManagerI.cs:297-348 | taking one more key still in the working copy adds exactly its StepEntry loads and leaves what StepEntry leaves |
| PluginConfig.LoadedAsSnoc | csharp/src/Ice/PluginManagerI.cs:351-540 | appending the plug-in loadPlugin creates for one more call keeps the list equal to the plug-ins of its calls |
| PluginConfig.RegisteredFactoryWins | csharp/src/Ice/PluginManagerI.cs:402-403 | with a registered factory, reflection is never consulted, and loading succeeds exactly when that factory creates a plug-in |
| PluginConfig.UnregisteredNeedsSeparator | csharp/src/Ice/PluginManagerI.cs:420-425 | without a registered factory, an entry point with no separator fails with "invalid entry point format" |
| PluginConfig.NullPluginIsError | csharp/src/Ice/PluginManagerI.cs:529-534 | a factory that returns no plug-in makes loading fail |
| PluginLifecycle.FirstFailure | csharp/src/Ice/PluginManagerI.cs:60-75 | every plug-in before the result initializes, and the plug-in at the result, if any, raises |
| PluginLifecycle.InitializeAllInOrder | csharp/src/Ice/PluginManagerI.cs:60-75 | when none fails, each plug-in is initialized once, in list order, and none is destroyed |
| PluginLifecycle.RollbackNests | csharp/src/Ice/PluginManagerI.cs:77-96 | when the k-th fails, the calls are the k initializes in order, then the failing initialize, then k destroys in reverse order: the i-th initialize is undone by call 2k-i, and the failing plug-in is not destroyed |
| PluginLifecycle.DestroyInReverse | csharp/src/Ice/PluginManagerI.cs:164-182 | destruction destroys every plug-in once, last loaded first |
| PluginLifecycle.DestroyWarningsCount | csharp/src/Ice/PluginManagerI.cs:170-181 | at most one warning per plug-in, none when no destroy raises and one each when all raise, so a failing destroy does not stop the others |
| PluginManager.FactoryTable.constructor | csharp/src/Ice/PluginManagerI.cs:564-565 | the table starts empty |
| PluginManager.FactoryTable.RegisterPluginFactory | csharp/src/Ice/PluginManagerI.cs:33-43 | the first registration of a name wins and later ones change nothing. The name joins the load-on-initialization list only on that first registration, and only when asked |
| PluginManager.PluginManagerI.constructor | csharp/src/Ice/PluginManagerI.cs:189-194 | a new manager is live, empty and not initialized |
| PluginManager.PluginManagerI.FindPlugin | csharp/src/Ice/PluginManagerI.cs:542-552 | the scan returns Lookup of the list |
| PluginManager.PluginManagerI.GetPlugins | csharp/src/Ice/PluginManagerI.cs:101-112 | the result is the names of the list, in load order |
| PluginManager.PluginManagerI.GetPlugin | csharp/src/Ice/PluginManagerI.cs:114-134 | after destroy the result is CommunicatorDestroyed. Otherwise it is the first plug-in with the name, or NotRegistered("plugin", name) |
| PluginManager.PluginManagerI.AddPlugin | csharp/src/Ice/PluginManagerI.cs:136-158 | after destroy it fails with CommunicatorDestroyed and a present name fails with AlreadyRegistered. Otherwise exactly one entry is appended |
| PluginManager.PluginManagerI.InitializePlugins | csharp/src/Ice/PluginManagerI.cs:45-99 | a second call fails with "plug-ins already initialized". Otherwise the calls made are InitializeTrace. Success sets the flag. A failure leaves it clear and reports the plug-in's own exception or the wrapped "initialization failed" one |
| PluginManager.PluginManagerI.InitializeInOrder | csharp/src/Ice/PluginManagerI.cs:60-75 | the scan stops at FirstFailure. It has made the Initialize calls of the plug-ins before it, in order, plus the failing plug-in's call |
| PluginManager.PluginManagerI.RollBack | csharp/src/Ice/PluginManagerI.cs:77-96 | the initialized plug-ins are destroyed in reverse order, whatever their destroy does |
| PluginManager.PluginManagerI.Destroy | csharp/src/Ice/PluginManagerI.cs:160-187 | on a live, initialized manager, it makes the DestroyTrace calls and returns the DestroyWarnings. Otherwise it makes no call. Either way the manager is then destroyed, so a second call makes no call |
| PluginManager.PluginManagerI.DestroyAll | csharp/src/Ice/PluginManagerI.cs:168-181 | every plug-in of the reversed list is destroyed in turn, and a warning is collected for each whose destroy raised |
| PluginManager.PluginManagerI.LoadPlugin | csharp/src/Ice/PluginManagerI.cs:351-540 | loading either appends exactly the plug-in ResolvePlugin gives, or reports its error and leaves the list alone |
| PluginManager.PluginManagerI.LoadPlugins | csharp/src/Ice/PluginManagerI.cs:196-349 | the earlier list is kept as a prefix. On success, the names added are the load-on-initialization factories, then the non-empty load-order names, then only configured names. They are distinct, and every `Ice.Plugin.*` key was ignored or belongs to an added plug-in. The plug-ins added are exactly those that the loadPlugin calls of Planned create, for the order in which the remaining keys were taken, and that plan leaves no key behind |
| PluginManager.PluginManagerI.LoadConfigured | csharp/src/Ice/PluginManagerI.cs:210-292 | on success, the plug-ins added are those of ResolveAll over the load-on-initialization list and then over the non-empty load-order names, with the working copy that leaves, and every load-order name was configured |
| PluginManager.PluginManagerI.LoadOnInitialization | csharp/src/Ice/PluginManagerI.cs:210-234 | on success, the plug-ins added are those of ResolveAll over the load-on-initialization list, in order, and the working copy is the one ResolveAll leaves |
| PluginManager.PluginManagerI.LoadFirst | csharp/src/Ice/PluginManagerI.cs:211-233 | a factory to load on initialization is loaded with its `.clr` specification, else its plain one, else an empty one. A failure is exactly loadPlugin's and appends nothing. On success exactly the plug-in loadPlugin creates from that specification is appended, under the factory's name, and exactly the keys ResolveKey consumed leave the working copy |
| PluginManager.PluginManagerI.LoadInOrder | csharp/src/Ice/PluginManagerI.cs:253-292 | on success, the plug-ins added are those of ResolveAll over the non-empty load-order names, in order, each name configured, and the working copy is the one ResolveAll leaves |
| PluginManager.PluginManagerI.LoadOrdered | csharp/src/Ice/PluginManagerI.cs:255-291 | an empty name is skipped with no change. A name already loaded fails with "already loaded" and an unconfigured one with "not defined"; any other failure is exactly loadPlugin's and appends nothing. On success exactly the plug-in loadPlugin creates from the configured `.clr`, else plain, specification is appended under the name, and exactly the keys ResolveKey consumed leave the working copy |
| PluginManager.PluginManagerI.LoadRemaining | csharp/src/Ice/PluginManagerI.cs:297-348 | the drain loop terminates, since each pass removes at least one key. On success, for the order in which the keys were taken, the plug-ins added are those Drain loads and Drain leaves nothing; every configured key was ignored or belongs to an added plug-in, and the added names are configured and distinct |
| PluginManager.PluginManagerI.LoadEntry | csharp/src/Ice/PluginManagerI.cs:299-347 | a `.cpp` or `.java` key is dropped and loads nothing. Any other key loads the plug-in StepEntry names with the specification StepEntry gives: a failure is exactly loadPlugin's and appends nothing; on success exactly that plug-in is appended and the working copy is what StepEntry leaves, strictly smaller |
| PluginManager.TrackedAfterEntry | csharp/src/Ice/PluginManagerI.cs:299-347 | one key of the drain loop leaves a strictly smaller working copy; it is skipped exactly when ignored; an ignored key keeps the bookkeeping, and any other names a plug-in not yet added and configured, whose keys then all leave the working copy |
| PluginManager.PhasesCompose | csharp/src/Ice/PluginManagerI.cs:196-349 | the three loops' results compose: load-on-initialization names first, load-order names next, then configured names only, distinct, with every `Ice.Plugin.*` key accounted for |
| PluginManager.FirstAfterLoad | csharp/src/Ice/PluginManagerI.cs:210-234 | one more factory to load on initialization, loaded with the specification ResolveKey finds, extends the first loop's state by exactly that plug-in, its name and its keys |
| PluginManager.OrderedAfterLoad | csharp/src/Ice/PluginManagerI.cs:261-285 | one more configured load-order name not yet loaded extends the second loop's state by exactly that plug-in, its name and its keys |
| PluginManager.RemainingAfterEntry | csharp/src/Ice/PluginManagerI.cs:297-348 | one more key of the drain loop extends the last loop's state by what StepEntry does with it: nothing loaded for an ignored key, else exactly the plug-in it names, and a strictly smaller working copy |

## Left out

- Threads, `lock` and the interleavings of the collocated handler: each locked region is one atomic step, and where work runs is a `Placement` tag.
- The thread pool's `dispatch` and `dispatchFromThisThread`: work handed to them is returned as a `Work` value. `RunWork` models what it does when it runs.
- `sendAsyncRequest`, `getReference` and `getConnection`: they forward to or return collaborators without logic of their own.
- `Incoming.invoke`, the servant dispatch: it is an opaque `DispatchOutcome`. `invokeNum` never exceeds 1, as in the source.
- The `OutgoingAsyncBase` callbacks, `attachCollocatedObserver` and the input-stream construction: `exception()`, `response()` and `sent()` are booleans, and a callback that fires is reported as a `Completion`.
- `TraceUtil` output and the logger. The header patch that precedes tracing is modelled.
- Protocol.cs is not part of this model. The header offsets (size field at 10, header size 14, request header 18, reply header 14) and the little-endian layout come from version 1.0 of the Ice protocol.
- CollocatedHandler.CollocatedRequestHandler.InvokeAsyncRequest: requires the counter to be below the largest 32-bit int. This excludes the point where `++_requestId` would wrap to a negative id.
- CollocatedHandler.CollocatedRequestHandler.InvokeAll: the per-dispatch increment's failure is modelled as the adapter-deactivated exception. Other local exceptions are modelled only as the servant dispatch raising.
- Debug assertions (`_response` in SendResponse, a live communicator in loadPlugins and loadPlugin) become preconditions, where they have a model counterpart, or are not modelled.
- Reflection (`Assembly.Load`, `LoadFrom`, `GetType`, `createInstance`): it is the `reflect` function of a `Loader`, with one outcome per way it can end. The exception raised when `createInstance` returns null is caught by the catch-all clause around it, so that outcome reports `System.Exception: ` and the exception's text rather than the bare "can't find constructor" reason. Exception texts from `ToString()` are opaque strings: the `describe` function of a `Loader` for a PluginInitializationException, the outcome's own reason string otherwise.
- `Options.split` quote parsing: it is the `split` function of a `Loader`.
- `parseCommandLineOptions` and the `cmdArgs` it rewrites: not modelled. The arguments after the entry point reach the factory unchanged.
- PluginManager.PluginManagerI.LoadPlugin: an empty specification passes an empty argument list, where the source passes a null array.
- The process logger: the destruction warnings are returned by `Destroy` as a sequence of messages instead of being logged.
- The inner exception that `PluginInitializationException` wraps: only the reason text is kept.
- The `Properties` object: it is a `map<string, string>`. `getPropertyAsList("Ice.PluginLoadOrder")` and its list parsing are not modelled; the load order is a parameter.
- The enumeration order of the remaining properties is not modelled: the drain loop takes any remaining key.
- PluginManager.PluginManagerI.LoadPlugins: on failure, the contract states only that the plug-ins loaded before the call stay in place. Which error is reported is stated per step, by LoadOrdered and LoadPlugin, and not for the whole call. The plug-ins loaded before the failure stay in the list, as in the source.
- A plug-in's `initialize` and `destroy` are total functions of the plug-in. So repeated calls on one plug-in behave alike in the model.

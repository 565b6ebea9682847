# Feature framework: marshalling, settlement and lifetimes

The framework connects a JS engine to native device features. This project models its three hard
parts and the containers and codecs around them, and proves what they guarantee:

* **Typed value marshalling** (`FeatureTypes`, `Marshalling`, `Meaning`, `Converters`, `References`). Two
  recursive converters and a dup/free pair are driven by a tree of type descriptors. The round trip
  is proved as an if-and-only-if over all type trees and all well-typed values, the acceptance of JS
  objects as an if-and-only-if, and reference counts as conserved.
* **Asynchronous work** (`Interconnect`, `MessageTransport`, `Geolocation`, `SystemSettings`). Each
  callback of the event loop, and each step of a second thread, is one step of a state machine; the
  theorems hold in every run. Classes with the source's fields and loops
  (`InterconnectContexts`, `TaskBoards`, `LocationContexts`, `MiwearSettingsObjects`) are proved to
  take exactly those steps; each carries its history, so that whatever holds in every run holds of the
  object after every call.
* **Containers and codecs** (`IntrusiveList`, `Registries`, `Directory`, `Downloads`,
  `PercentEncoding`, `Utf8`, `AppPath`). Pointer structures, ledgers of engine references, arrays
  sized from counters, and mappings with their exact inverses.

`dafny verify dfyconfig.toml` checks everything.

## What the environment is taken to do

* An armed timer fires at most once, and a stopped or closed one never fires; every close callback
  and every send completion runs at most once. Each `Possible` predicate states this.
* After its shutdown the phone connection still gets calls and callbacks, which find no context: sends
  and diagnoses are rejected and the rest does nothing. For calls this rests on the interface object
  being finalised first, because that is where the source clears its pointer to the context
  (`modules/interconnect_impl.cpp:916-924`), not in the shutdown. The location context has no such check in the
  source, so the model lets nothing but close callbacks reach it once it was told to go; the last
  clause of `Geolocation.DeletedOnceAndLast` rests on that. A detached page makes no more settings
  calls. Nothing else restricts the order of events.
* A promise id is handed to one call only. Live objects have distinct identities, and identities of
  freed requests are not reused.
* `FeatureMalloc` returns zeroed memory. Two JS functions being the same value is an equivalence.
* The engine's leaf translators are a parameter (`Codec`). No law is assumed of numbers, booleans, JSON
  and callbacks: the theorems say which leaves have to survive. Strings and any-references are taken to
  pass unchanged. `QuickJs` is the number codec of the backend.
* Clock readings, random numbers, sensor samples, what the settings service accepts, and the content
  of the file system are parameters.
* JS handlers do not call back into the object that is calling them.

## Where the code falls short of the obvious law

Each law is proved with the exact condition under which the code meets it.

* The marshalling round trip fails for an optional `any` member that refers to JS `undefined` and whose
  default is not null (the default comes back: `Marshalling.UndefinedOptionalTakesDefault`), for an
  array with an `undefined` element and for a non-empty array of doubly optional scalars (the process
  aborts: `Marshalling.UndefinedElementAborts`, `Marshalling.NestedOptionalArrayAborts`). The condition
  is `Marshalling.Faithful`; the JS values that abort a conversion are `Marshalling.Aborts`.
* An unsigned 64-bit number never survives the round trip through the QuickJS backend:
  `QuickJs.Unsigned64NeverSurvives`.
* `dupFtValue` and `freeFtValue` miss the references below an optional that is not the direct wrapper
  of a struct member, for instance in an array of optionals: `References.FullyVisited`. Counts are
  conserved all the same, because both are proved to miss the same ones.
* Before it looks at the type of an array element, either procedure reads a pointer at it; for elements
  narrower than a pointer the last reads leave the array: `References.ElementReadInside`.
* Setting the open handler to 0 while an open event is waiting loses the event, and setting the error
  handler to 0 loses a buffered error: `Interconnect.OpenDelivery`, `Interconnect.ErrorDelivery`, with
  the instances `Interconnect.ZeroHandlerLosesOpen` and `Interconnect.ZeroHandlerLosesError`.
* A cancelled download tells early and late handlers different messages and codes:
  `Downloads.SameReportExactly`.
* A full cache gives up the first token in string order, which may be the one just inserted; a handler
  set right after the end is then told that there is no such task:
  `Downloads.SurvivesInsertionExactly`.
* The pointer to the unshared download outlives its request when an unshared start is refused or the
  download ends after its page left; the next unshared start follows it, and the model defines no step
  there: `Downloads.ShareGoneExactly`.
* A directory entry that cannot be read fails a whole listing when it is the last one read, and is
  skipped in silence otherwise: `Directory.UnreadableLastFails`, `Directory.StatusesAreLast`.
* The UTF-8 check accepts overlong forms, surrogates and values beyond U+10FFFF: `Utf8.WellFormed` is
  the condition, `Utf8.NonCanonicalPasses` the family, and `Utf8.OverlongPasses`,
  `Utf8.SurrogatePasses` and `Utf8.BeyondRangePasses` are instances.
* An app URI does not survive the trip to a path and back when its type is `tmp` or contains the
  package name: `AppPath.RoundTripWithFile`, with the instances `AppPath.TmpUriIsLost` and
  `AppPath.PackageInTypeMangles`.

The code and its own comments disagree on the first connection: the comment on the open event says that
`isReconnected` is false the first time, and the code passes true for the first connection and false
for later ones (`modules/interconnect_impl.cpp:170-174`). The model follows the code.

## Model

| member | source | states |
|---|---|---|
| `FeatureTypes.FlagsByShape` | include/feature_description.h:36-47 | the flag arithmetic of the type macros: managed memory is exactly strings, any-references, JSON objects, structs and arrays, seen through one optional layer; a reference is that or a promise |
| `FeatureTypes.ZeroWidthElements` | src/feature_common.cpp:94-167 | an array element has width zero exactly for void and for non-reference values under two optionals |
| `FeatureTypes.WidthsInBits` | src/feature_common.cpp:94-167 | a scalar is as wide as its name says, in bits, also under one optional |
| `Marshalling.RoundTrip` | src/feature_convertor_templates.h:41-566 | for every type tree of numbers, booleans, strings, any, structs, optionals and arrays and every well-typed value: conversion to JS succeeds, and converting back into a zeroed slot yields the normal form if and only if the value is faithful |
| `Marshalling.ToTargetSucceeds` | src/feature_convertor_templates.h:41-250 | conversion to JS never fails on a well-typed value, and gives `undefined` exactly for an any-reference to `undefined` under any number of optionals |
| `Marshalling.StructRoundTrip` | src/feature_convertor_templates.h:132-161 | the round trip of a struct, with the exact condition on each member, including the default an absent-looking optional takes |
| `Marshalling.ArrayRoundTrip` | src/feature_convertor_templates.h:179-206 | the round trip of a non-empty array with sized elements, exactly when no element is undefined and each is faithful |
| `Marshalling.UnsizedArrayAborts` | src/feature_convertor_templates.h:503-541 | a non-empty array whose elements have no width aborts on the way back |
| `Marshalling.UndefinedOptionalTakesDefault` | src/feature_convertor_templates.h:430-470 | the failing instance: an optional any-member referring to `undefined` comes back as its default |
| `Marshalling.NestedOptionalArrayAborts` | src/feature_common.cpp:151-167 | the failing instance: a one-element array of doubly optional integers aborts |
| `Marshalling.UndefinedElementAborts` | src/feature_convertor_templates.h:528-531 | the failing instance: an array of any-references with an undefined element aborts |
| `Meaning.StoresExactly` | src/feature_convertor_templates.h:259-566 | for every type, JS value and slot, the converter to native succeeds with a content if and only if that content stands for the value, by a relation on types and values that does not mention the converter: leaf by leaf, member by member, with defaults, callback ids and what a slot held before |
| `Meaning.ShowsExactly` | src/feature_convertor_templates.h:41-250 | for every type with distinct member names and every content, the converter to JS gives a value if and only if that value shows the content, by such a relation: every member under its name and no other, every element in place |
| `Meaning.AbsentExactly` | src/feature_common.cpp:169-222 | what each kind of absent member leaves in any slot |
| `Meaning.CallbackIsStored` | src/feature_convertor_templates.h:479-502 | a function given for a callback, also under optionals, puts its id into the slot whatever that held, and the id is what is sent out again |
| `Meaning.CallbacksDiffer` | src/feature_convertor_templates.h:479-502 | functions with different ids land in different slots |
| `Meaning.CallbackMemberIsStored` | src/feature_convertor_templates.h:433-470 | in an accepted object every callback member holds the id of its function |
| `Meaning.FailureLeaves` | src/feature_convertor_templates.h:259-566 | a failing leaf, callback or promise, or a value of the wrong kind, leaves its slot as it was |
| `Meaning.StuckMembers` | src/feature_convertor_templates.h:425-470 | a member loop that fails leaves the members before converted, the failing one as its own failure left it, and the others as they were |
| `Meaning.StuckElems` | src/feature_convertor_templates.h:515-541 | the same for the element loop |
| `Marshalling.RefusedNeverSurvives` | src/feature_convertor_templates.h:41-566 | when the codec refuses the numbers of a tag that it sent out itself, no value with such a number anywhere in it makes the round trip |
| `QuickJs.SurvivesExactly` | src/backend/qjs/value_translator_qjs.h:31-130 | a number survives the backend if and only if it is not an unsigned 64-bit one, which leaves as a big integer and is refused on the way back |
| `QuickJs.Unsigned64NeverSurvives` | src/backend/qjs/value_translator_qjs.h:59-118 | no value with an unsigned 64-bit number in it makes the round trip through the backend |
| `QuickJs.PlainSurvives` | src/backend/qjs/value_translator_qjs.h:31-130 | every value without such numbers, undefined any-references and unsized arrays makes the round trip through the backend |
| `Marshalling.AcceptedExactly` | src/feature_convertor_templates.h:259-566 | for every type, JS value and slot: conversion to native succeeds if and only if the value is accepted: every present member converts and every absent one is a default-able optional, a pointer leaf or a nullable complex type |
| `Marshalling.AbortsExactly` | src/feature_convertor_templates.h:259-566 | for every type, JS value and slot: conversion to native aborts the process if and only if, in the order of the loops, the first thing that does not convert is an undefined array element or a non-empty array without element width; together with acceptance this separates success, clean failure and abort |
| `Marshalling.MembersCrashExactly` | src/feature_convertor_templates.h:425-470 | the member loop aborts exactly when some member does and all before it convert |
| `Marshalling.ElemsCrashExactly` | src/feature_convertor_templates.h:515-541 | the same for the element loop |
| `Marshalling.StructContents` | src/feature_convertor_templates.h:411-470 | after an accepted conversion an absent optional holds its declared default, any other absent member is zero, a present one holds its own conversion |
| `Marshalling.AbsentMember` | src/feature_common.cpp:169-222 | what each kind of absent member leaves in a zeroed slot |
| `Marshalling.FillMembersPointwise` | src/feature_convertor_templates.h:425-470 | the member loop succeeds exactly when every member converts by itself, and then each slot holds its own result and no other changes |
| `Marshalling.FillElemsPointwise` | src/feature_convertor_templates.h:515-541 | the same for the element loop |
| `Marshalling.MembersToTargetPointwise` | src/feature_convertor_templates.h:132-161 | the JS object built by the loop holds each member under its name and nothing else |
| `Marshalling.ElemsToTargetPointwise` | src/feature_convertor_templates.h:179-206 | the JS array built by the loop holds each element at its index |
| `Converters.ConvertValueToTarget` | src/feature_convertor_templates.h:41-250 | the procedure with its two loops computes the conversion of `Marshalling` |
| `Converters.ConvertValueToNative` | src/feature_convertor_templates.h:259-566 | the procedure stores the pointer to a new block first, fills it, leaves the outcome of `Marshalling` in its slot, returns its code, and touches no other slot |
| `Converters.FillStruct` | src/feature_convertor_templates.h:425-470 | the member loop through the stored pointer, including what a failure leaves behind |
| `Converters.FillArray` | src/feature_convertor_templates.h:515-541 | the element loop through the stored pointer, over zeroed elements, including the abort on an undefined element |
| `References.VisitsAllExactly` | src/feature_common.cpp:269-357 | the dup/free walk reaches every any-reference of every value, in order, if and only if the type hides none below an optional other than a member's direct wrapper |
| `References.VisitsAllLeaves` | src/feature_common.cpp:269-357 | on such types the visited references are exactly those reachable, in order |
| `References.HiddenLeaf` | src/feature_common.cpp:296-298 | on every other type there is a value with a reference the walk misses |
| `References.MemberVisit` | src/feature_common.cpp:285-291 | unwrapping one optional and filtering on managed memory skips no member holding a reference |
| `References.AdjustedCount` | src/feature_common.cpp:269-357 | a walk moves every count by the number of its visits |
| `References.UpAndDown` | src/feature_common.cpp:269-357 | references added and released again leave every count as it was, and each has a larger count in between |
| `References.HoldsExactly` | src/permissions_manager.cpp:122-129 | an argument is held exactly when its parameter is a string, an any-reference, a JSON object, a struct or an array, or an optional of one, and its slot is not the zero one |
| `References.Engine.DupFtValue` | src/feature_common.cpp:315-357 | the recursive procedure adds one reference for exactly the visited any-references, once per visit |
| `References.Engine.FreeFtValue` | src/feature_common.cpp:269-313 | a procedure of its own, with its own loops, that releases exactly what the other one adds |
| `References.Engine.DupThenFree` | src/feature_common.cpp:269-357 | a call of the one followed by a call of the other restores every engine count, for every type and value |
| `References.ElementReadInside` | src/feature_common.cpp:271-306 | the pointer-wide read of an array element stays inside the array if and only if there is no element or elements are as wide as a pointer |
| `References.WideElements` | src/feature_common.cpp:94-167 | the elements that are: references and 64-bit scalars, seen through one optional |
| `References.Engine.HoldAndRelease` | src/permissions_manager.cpp:122-151 | holding and releasing the arguments of a permission request restores the count of every engine value and of every argument block, and gives no block back |
| `References.Engine.HoldArgs` | src/permissions_manager.cpp:122-129 | every such argument gets one more owner of its block, no other block gets one, and every engine value below it one more reference |
| `References.Engine.ReleaseArgs` | src/permissions_manager.cpp:144-151 | everything is given back, and no block with an owner besides the request is freed |
| `Interconnect.PromisesInEveryRun` | modules/interconnect_impl.cpp:362-503 | in every run each promise is settled at most once; while the context lives a promise is unsettled exactly when a listed task or the pending diagnosis owns it; a listed task has exactly one of an armed timer and a send in flight; no timer is armed while connected |
| `Interconnect.OwnedInEveryRun` | modules/interconnect_impl.cpp:434-503 | in every run the promises issued are exactly those owned in one way: settled, a listed task, the pending diagnosis, or dropped at shutdown |
| `Interconnect.StepKeeps` | modules/interconnect_impl.cpp:125-210 | every callback keeps conservation of promises, task and timer consistency, the single pending diagnosis and the error ledger |
| `Interconnect.RunKeeps` | modules/interconnect_impl.cpp:125-712 | the same over every run |
| `Interconnect.QuiescentMeansSettled` | modules/interconnect_impl.cpp:434-503 | when nothing is armed or in flight, every promise has been settled |
| `Interconnect.SentInEveryRun` | modules/interconnect_impl.cpp:639-699 | in every run what is handed to the phone is the text of the send call with that promise, at most once, never while the task waits under its timer, and every send in flight has been handed over |
| `Interconnect.ErrorsFreedAtShutdown` | modules/interconnect_impl.cpp:293-360 | after shutdown every error object ever made has been freed exactly once |
| `Interconnect.OpenPendingExactly` | modules/interconnect_impl.cpp:706-728 | an open event is waiting if and only if some connection was made without a handler and no disconnect, handler or shutdown followed |
| `Interconnect.OpenDelivery` | modules/interconnect_impl.cpp:548-557 | in every run setting an open handler delivers one event exactly when one is waiting and the handler is not zero; nothing is waiting afterwards |
| `Interconnect.ZeroHandlerLosesOpen` | modules/interconnect_impl.cpp:548-557 | the failing instance: a waiting open is lost by setting the handler to zero first |
| `Interconnect.ErrorPendingExactly` | modules/interconnect_impl.cpp:587-602 | in every run an error with a given code is buffered if and only if it is the last one raised without a handler and no handler or shutdown followed |
| `Interconnect.ErrorDelivery` | modules/interconnect_impl.cpp:563-573 | in every run setting an error handler delivers exactly the buffered error, if the handler is not zero; nothing is buffered afterwards |
| `Interconnect.ZeroHandlerLosesError` | modules/interconnect_impl.cpp:563-573 | the failing instance: a buffered error is lost by setting the handler to zero first |
| `Interconnect.StatusFocus` | modules/interconnect_impl.cpp:152-204 | what each status message does to the waiting open and the pending diagnosis |
| `Interconnect.StatusCalls` | modules/interconnect_impl.cpp:152-204 | which handler each status message calls at once and with what: a connection with the flag that says whether the attempt was still going on, a disconnection as error 1006 then and as close 1000 later, a failed connection as 1000, a missing app as 1001 |
| `Interconnect.DiagnosisStepOutcome` | modules/interconnect_impl.cpp:380-432 | a pending diagnosis is settled at once by the events that end it and untouched by all others: with 204 by its timer, otherwise with 0 exactly when the link is connected, 1001 exactly when the app is not installed, and 1000 for every other status |
| `Interconnect.DiagnosisAtOnce` | modules/interconnect_impl.cpp:1043-1094 | in every run a diagnosis call is refused with 1006 after shutdown, answered at once about the link when that is not coming up, refused with 1000 or kept pending otherwise |
| `Interconnect.DiagnosisPendingExactly` | modules/interconnect_impl.cpp:1043-1094 | over a run a diagnosis stays pending if and only if no later event ends it |
| `Interconnect.DiagnosisInEveryRun` | modules/interconnect_impl.cpp:278-291 | a diagnosis is pending exactly while its timer is armed, and there is at most one |
| `InterconnectContexts.InterconnectContext.Send` | modules/interconnect_impl.cpp:982-1041 | an object whose history is a run stays one; the promise of the caller is owned in exactly one way; it becomes a task with its text exactly when there is one and the link is up or coming up, handed over when connected and under a timer otherwise; else it is rejected with 202 or 1006 |
| `InterconnectContexts.InterconnectContext.ProcessSendResult` | modules/interconnect_impl.cpp:474-503 | a result settles a listed task and is ignored for any other |
| `InterconnectContexts.InterconnectContext.OnSendTimer` | modules/interconnect_impl.cpp:434-441 | a timer that fires always finds its task, while not connected, and rejects its promise; the history is extended by one event |
| `InterconnectContexts.InterconnectContext.OnSendDone` | modules/interconnect_impl.cpp:446-461 | a completed send always finds its task and settles its promise, unless the context is gone |
| `InterconnectContexts.InterconnectContext.OnDiagnosisTimer` | modules/interconnect_impl.cpp:278-288 | the diagnosis timer always finds a pending diagnosis and settles it |
| `InterconnectContexts.ObjectPromises` | modules/interconnect_impl.cpp:434-503 | at any moment an object has settled no promise twice, owns each in exactly one way, and has no timer armed while connected |
| `InterconnectContexts.InterconnectContext.ProcessPendingSendTasks` | modules/interconnect_impl.cpp:362-378 | the loop over the task set, in any order, hands over every waiting task once and disarms its timer |
| `InterconnectContexts.InterconnectContext.Diagnosis` | modules/interconnect_impl.cpp:1043-1094 | the promise of the caller is owned in exactly one way; it is settled at once with 1006 after shutdown, with a code that tells about the link when that is not coming up, with 1000 when it may not wait, and is the pending diagnosis otherwise; a pending one is left alone |
| `InterconnectContexts.InterconnectContext.ProcessPendingDiagnosis` | modules/interconnect_impl.cpp:380-432 | a pending diagnosis is settled once, with the code whose meaning `Interconnect.CodeTellsLink` states, and its timer closed |
| `Interconnect.CodeTellsLink` | modules/interconnect_impl.cpp:393-420 | the code is 0 exactly when connected, 1001 exactly when the app is not installed, 1000 for every other status, and 204 for a timeout |
| `InterconnectContexts.InterconnectContext.OnStatus` | modules/interconnect_impl.cpp:152-204 | the switch: the handlers are told what the status means for them, a pending diagnosis is told about the link by a status that ends the attempt and by no other, and once connected no timer is armed and every waiting message has been handed over |
| `InterconnectContexts.InterconnectContext.SetConnFunc` | modules/interconnect_impl.cpp:548-557 | the handler is called once exactly when the history holds a deferred connection and the handler is not zero |
| `InterconnectContexts.InterconnectContext.SetErrorFunc` | modules/interconnect_impl.cpp:563-573 | the handler is told exactly the error the history left waiting; every error object made so far is freed |
| `InterconnectContexts.InterconnectContext.RaiseError` | modules/interconnect_impl.cpp:587-602 | a new error is delivered and freed, or buffered in place of an older one, which is freed |
| `InterconnectContexts.InterconnectContext.DeleteTasks` | modules/interconnect_impl.cpp:307-316 | the shutdown loop closes every timer and drops every task, from any state a run can reach |
| `InterconnectContexts.InterconnectContext.Destroy` | modules/interconnect_impl.cpp:293-324 | shutdown settles nothing, leaves no timer, task or diagnosis, and every error object ever made is freed exactly once |
| `MessageTransport.AtMostOneCallback` | modules/message_transport.cpp:303-379 | in every history of commits, late or repeated replies, timeouts and clears each task causes at most one client callback, and an unsettled listed task has a live timer |
| `MessageTransport.ExactlyOneCallback` | modules/message_transport.cpp:303-379 | in every history a task is settled exactly when its client has heard of it, and the client has heard of it once |
| `MessageTransport.TimeoutIsHeard` | modules/message_transport.cpp:303-313 | in every history a timeout that can happen reaches its client and settles its task and no other |
| `MessageTransport.ReplyIsHeard` | modules/message_transport.cpp:76-97 | in every history a reply reaches its client exactly when its task is on the board and unsettled, and settles no other |
| `MessageTransport.ListedStep` | modules/message_transport.cpp:341-355 | a task is on the board from its commit until the next clear |
| `MessageTransport.CopyRefinesInPlace` | modules/message_transport.cpp:76-83 | in every history, executing the copied board shows the client the same callbacks in the same order as executing the original in place (a simulation between the two) |
| `MessageTransport.ClearSilences` | modules/message_transport.cpp:341-349 | after a clear no task committed before it ever causes a callback again |
| `MessageTransport.CallsAreOwn` | modules/message_transport.cpp:357-379 | a reply is heard by its own task, if that is listed and unsettled, and by no other |
| `MessageTransport.StepKeeps` | modules/message_transport.cpp:303-379 | every event keeps the task and log invariants |
| `TaskBoards.MsgTask.Execute` | modules/message_transport.cpp:357-379 | one turn of the walk on a shared task: its new state, whether it leaves the list, what the client hears |
| `TaskBoards.MsgTask.OnTimer` | modules/message_transport.cpp:303-313 | the timer settles an unsettled task and tells its client, if the reply object still has one, under the promise id of the task |
| `TaskBoards.TaskBoard.ExecuteTask` | modules/message_transport.cpp:357-379 | the walk with erasure under the iterator: every listed task is executed once as the state machine says, and the list keeps exactly the unsettled others in order |
| `TaskBoards.TaskBoard.ExecuteTurn` | modules/message_transport.cpp:359-377 | one turn: the task under the iterator is executed, then erased or passed, and the list is again what was kept and what is to come |
| `TaskBoards.TaskBoard.ClearTimer` | modules/message_transport.cpp:341-349 | the clearing loop stops every timer, detaches every reply object and empties the list |
| `TaskBoards.OnReply` | modules/message_transport.cpp:76-83 | a reply executes a copy: the original list is unchanged while its tasks have gone through the execution |
| `TaskBoards.ClientConnection.Commit` | modules/message_transport.cpp:351-355 | a message goes on the board with a reply object of its own and a running timer; the history of the connection stays a run |
| `TaskBoards.ClientConnection.Reply` | modules/message_transport.cpp:76-83 | a reply, at any time, is heard exactly when its task is on the board and unsettled, under its promise id and with its text, although a copy of the board is executed; from then on the task is settled |
| `TaskBoards.ClientConnection.TimeOut` | modules/message_transport.cpp:303-313 | a timer that fires settles its task, and the client hears of the timeout under its promise id |
| `TaskBoards.ClientConnection.Clear` | modules/message_transport.cpp:341-349 | clearing the board is one step of the history |
| `TaskBoards.HeardOnce` | modules/message_transport.cpp:303-379 | at any moment the client of a connection has heard of no promise twice, and every unsettled task on the board has a running timer |
| `TaskBoards.SettledIsHeard` | modules/message_transport.cpp:303-379 | at any moment a task is settled exactly when the client has heard of it |
| `TaskBoards.HeardAreCalls` | modules/message_transport.cpp:92-97 | the messages heard on the heap are the callbacks of the state machine, in order, under the promise id of the task |
| `Geolocation.LifetimeStep` | modules/geolocation_impl.cpp:81-401 | every callback keeps: the reference count is the timer not yet closed plus listed topics plus closing topics |
| `Geolocation.QueueStep` | modules/geolocation_impl.cpp:103-275 | every callback keeps: answered and waiting promises are in call order, and each call is in exactly one of answered-or-waiting, refused, abandoned |
| `Geolocation.ServedStep` | modules/geolocation_impl.cpp:166-257 | every callback keeps: until destruction any waiting request or subscriber has a live topic |
| `Geolocation.DeletedOnceAndLast` | modules/geolocation_impl.cpp:367-401 | in every run the context is deleted at most once, exactly when it was destroyed and every close callback has run, and nothing can reach it afterwards |
| `Geolocation.LocationInEveryRun` | modules/geolocation_impl.cpp:166-209 | in every run: the count, a live topic for pending work, at most 101 waiting requests, promises settled once and first in first out |
| `Geolocation.LongestExpiredPrefix` | modules/geolocation_impl.cpp:259-275 | the timer rejects exactly the longest prefix of requests that have waited longer than their timeouts |
| `Geolocation.ExpiredIsOverdue` | modules/geolocation_impl.cpp:259-275 | the comparison in whole seconds says that more milliseconds have passed than the timeout, for negative timeouts too |
| `Geolocation.SubscribeExactly` | modules/geolocation_impl.cpp:211-257 | the whole answer to a subscription: a page that has one keeps its place with new callbacks, a new one goes last behind a topic opened if nothing was going on, a refused one changes nothing, and no other page is touched |
| `Geolocation.UnsubscribeExactly` | modules/geolocation_impl.cpp:293-320 | the whole answer to an unsubscription: that one entry goes, in place, and a context falling idle gives up its oldest topic |
| `Geolocation.DataExactly` | modules/geolocation_impl.cpp:103-164 | the whole answer to a batch of samples |
| `Geolocation.GetExactly` | modules/geolocation_impl.cpp:166-209 | the whole answer to a request |
| `Geolocation.IdleTicksDrain` | modules/geolocation_impl.cpp:277-291 | ticks of an idle context give up one leftover topic each until none is left |
| `Geolocation.RemovalKeepsOrder` | modules/geolocation_impl.cpp:356-365 | removing the requests of a page keeps the order of the others and drops no other |
| `Geolocation.DetachLeavesNothing` | modules/geolocation_impl.cpp:293-365 | in every run a page has at most one subscription, and detaching removes exactly the requests and the subscription of that page |
| `Geolocation.OneEachStep` | modules/geolocation_impl.cpp:211-320 | every callback keeps at most one subscription per page |
| `LocationContexts.LocationContext.GetLocation` | modules/geolocation_impl.cpp:166-209 | the promise is refused exactly when more than 100 wait or an idle context gets no topic; otherwise it waits behind all others, served by a live topic, and after every promise answered so far |
| `LocationContexts.LocationContext.Subscribe` | modules/geolocation_impl.cpp:211-257 | a page that has a subscription keeps its place with new callbacks, a new one goes last, a refused one changes nothing, no other page is touched, and a subscription has a live topic |
| `LocationContexts.LocationContext.Unsubscribe` | modules/geolocation_impl.cpp:293-320 | the subscription of the page goes, the others stay in their order, and a context falling idle gives up its oldest topic |
| `LocationContexts.LocationContext.FindMeta` | modules/geolocation_impl.cpp:93-101 | the first subscription of the page, or the end of the list |
| `LocationContexts.LocationContext.OnData` | modules/geolocation_impl.cpp:103-164 | a batch settles at most one promise, the oldest, exactly when its last sample is valid, and an idle context gives up its oldest topic |
| `LocationContexts.LocationContext.OnTick` | modules/geolocation_impl.cpp:259-291 | the loop rejects exactly the longest overdue prefix, in order, and an idle context gives up its oldest topic |
| `LocationContexts.LocationContext.OnTopicClosed` | modules/geolocation_impl.cpp:81-91 | the count is the number of open handles, and the context goes with this callback exactly when it was told to go and this was the last handle |
| `LocationContexts.LocationContext.OnTimerClosed` | modules/geolocation_impl.cpp:367-376 | the same for the timer |
| `LocationContexts.LocationContext.OnDetached` | modules/geolocation_impl.cpp:356-365 | the removal loop and the unsubscription take exactly the requests and the subscription of the page |
| `LocationContexts.LocationContext.OnDestroy` | modules/geolocation_impl.cpp:378-401 | no topic is left open, every waiting promise is abandoned, and the context is not deleted yet |
| `SystemSettings.SettingsInEveryRun` | modules/system_settings_impl.cpp:154-522 | under every interleaving of the two threads: each request is called at most once, messages are freed exactly once and in the order of their cloning, at most one subscription exists per key and page |
| `SystemSettings.ReplyIsDelivered` | modules/system_settings_impl.cpp:478-522 | a freed message has called its request unless the page left, also when it was queued before the request was inserted; a queued message always has a wakeup or a drain about to take it |
| `SystemSettings.NoCallAfterDetach` | modules/system_settings_impl.cpp:154-171 | in every run no request is called and no subscription told after its page detached |
| `SystemSettings.NoNoticeAfterUnsubscribe` | modules/system_settings_impl.cpp:376-395 | in every run a cancelled subscription is told nothing any more, even if its messages are still queued |
| `SystemSettings.NoticeExactly` | modules/system_settings_impl.cpp:489-503 | a delivered message tells its subscription exactly when that is listed, once, under the callback it has by then, and answers no request instead |
| `SystemSettings.MessagesReachTheirTargets` | modules/system_settings_impl.cpp:489-503 | in every run each request that was called and each subscription that was told got a message addressed to it |
| `SystemSettings.NoticesInEveryRun` | modules/system_settings_impl.cpp:489-503 | in every run subscriptions are told of distinct messages, in the order of their cloning |
| `SystemSettings.MessagesStep` | modules/system_settings_impl.cpp:408-522 | every step of either thread keeps the conservation of messages |
| `SystemSettings.RequestsStep` | modules/system_settings_impl.cpp:249-347 | every step keeps: an accepted request is being inserted, listed, answered or gone with its page, and answered once |
| `SystemSettings.SubsStep` | modules/system_settings_impl.cpp:349-395 | every step keeps at most one subscription per key and page |
| `MiwearSettingsObjects.MiwearSettings.ProcessMessages` | modules/system_settings_impl.cpp:478-503 | the drain, while the service thread goes on queueing between any two steps: everything queued when the mutex was taken is freed in order, every reply among it has reached its request unless the page left, and the history stays a run |
| `MiwearSettingsObjects.MiwearSettings.Process` | modules/system_settings_impl.cpp:489-503 | one message calls and removes its listed request, or tells its listed subscription, or nobody, and is freed |
| `MiwearSettingsObjects.MiwearSettings.RequestProp` | modules/system_settings_impl.cpp:249-347 | a request is accepted first and inserted later; whatever the service thread does in between, even replying, it ends up listed and not yet called |
| `MiwearSettingsObjects.MiwearSettings.OtherThread` | modules/system_settings_impl.cpp:408-415 | the service thread may only clone and queue; what is queued stays, and the history stays a run |
| `MiwearSettingsObjects.ObjectSettings` | modules/system_settings_impl.cpp:478-503 | at any moment an object has called no request twice, freed every message at most once and in order, and holds one subscription per key and page |
| `MiwearSettingsObjects.MiwearSettings.Detach` | modules/system_settings_impl.cpp:154-171 | the two loops erase exactly what belongs to the page |
| `MiwearSettingsObjects.MiwearSettings.FindSubscription` | modules/system_settings_impl.cpp:352-360 | a subscription of the page to the key is found if and only if there is one |
| `MiwearSettingsObjects.MiwearSettings.SubscribeProp` | modules/system_settings_impl.cpp:349-374 | the callback is replaced, or the subscription inserted after acceptance with the service thread at work in between; every other subscription stays, and the page holds exactly one for the key |
| `MiwearSettingsObjects.MiwearSettings.UnsubscribeProp` | modules/system_settings_impl.cpp:376-395 | the loop erases exactly the subscription of the page to the key, and only after the service agreed |
| `IntrusiveList.Initialize` | include/feature_list.h:21-25 | the sentinel alone represents the empty sequence |
| `IntrusiveList.AddTail` | include/feature_list.h:35-43 | the new node is appended to the represented sequence |
| `IntrusiveList.Delete` | include/feature_list.h:27-33 | exactly that node leaves the sequence, and its links are null |
| `IntrusiveList.VisitNode` | modules/request_impl.cpp:160-166 | the loop body on the n-th original node, which it may delete |
| `IntrusiveList.ForEverySafe` | include/feature_list.h:45-53 | whichever nodes the body deletes while standing on them, every original node is visited once and in order, and the list afterwards is the others |
| `IntrusiveList.SurvivorsAre` | modules/fetch_impl.cpp:226-235 | what is left is exactly what was listed and not deleted |
| `Registries.CallbackManager.FindCallbackId` | src/callback_manager.h:119-131 | zero exactly when no same-value function is registered |
| `Registries.CallbackManager.AddCallback` | src/callback_manager.h:54-65 | a registered function keeps its id, a new one gets an id larger than any before; references held equal live registrations |
| `Registries.CallbackManager.EraseCallback` | src/callback_manager.h:67-81 | removes exactly that id and gives its reference back; refuses ids that are not registered |
| `Registries.CallbackManager.ClearCallbacks` | src/callback_manager.h:83-90 | nothing is registered and nothing held; ids go on from where they were |
| `Registries.EventManager.AddEventCallback` | src/feature_event_manager.h:119-134 | the id of the event is returned; its list has the function, keeps those before it in front and in order, and grows by one exactly if the function was not in it, with one more reference; other events are untouched; a new id is announced exactly once |
| `Registries.AppendedExactly` | src/feature_event_manager.h:50-57 | what adding a function does to a list |
| `Registries.AddedThenErased` | src/feature_event_manager.h:50-68 | adding a new function and erasing it gives the old list back |
| `Registries.EventManager.FindEventId` | src/feature_event_manager.h:198-214 | the entries are compared with the descriptor; zero exactly for a null descriptor or one without an entry |
| `Registries.EventManager.EraseEventCallback` | src/feature_event_manager.h:136-144 | removes the function from that event only and gives its reference back; a null or unknown descriptor changes nothing |
| `Registries.EventManager.RemoveEventCallbacks` | src/feature_event_manager.h:146-167 | empties a list, and on request forgets the id and tells the listener exactly then |
| `Registries.EventManager.ClearAllEvents` | src/feature_event_manager.h:179-188 | nothing is held, and every ADDED has its REMOVED |
| `Registries.ErasedOrdered` | src/feature_event_manager.h:59-68 | erasing keeps the order of the rest |
| `Registries.ErasedMembers` | src/feature_event_manager.h:59-68 | erasing removes the function and nothing else |
| `Registries.HeldErase` | src/feature_event_manager.h:59-68 | references held equal registrations after erasing, function by function |
| `Registries.HeldRelease` | src/feature_event_manager.h:80-86 | the same after emptying a list |
| `Registries.LogStep` | src/feature_event_manager.h:126-128 | a notification keeps ADDED minus REMOVED at 1 exactly for the ids in the map |
| `Directory.ReadDir` | modules/file_impl.cpp:817-859 | the readdir loop builds the list in read order, its counters are the numbers of files and directories in it, and it leaves the status of the last stat or failing opendir |
| `Directory.ReadEntryCounts` | modules/file_impl.cpp:770-859 | for every file system, at every node of the tree read, the counters add up to the length of the child list |
| `Directory.GetDirList` | modules/file_impl.cpp:927-964 | the array is exactly filled with all children, in read order and recursively, without a write out of bounds |
| `Directory.GetExtendedInfo` | modules/file_impl.cpp:902-925 | one element, with its own array when recursion is asked for |
| `Directory.ListFiles` | modules/file_impl.cpp:927-964 | the array is exactly filled with the plain files, in read order |
| `Directory.PlainFilesCount` | modules/file_impl.cpp:927-964 | the file counter is the number of slots the plain listing writes |
| `Directory.PlainFilesShow` | modules/file_impl.cpp:817-964 | from the file system to the array: the items show, in order, exactly the readable entries with an app URI that are no directories, each with its URI, size and time in milliseconds |
| `Directory.AllExtendedShow` | modules/file_impl.cpp:817-964 | from the file system to the nested arrays: the items show, in order and at every depth, exactly the readable entries with an app URI, with their kinds |
| `Directory.FreedOnce` | modules/file_impl.cpp:328-338 | every allocation made while reading a tree is freed exactly once and nothing else is |
| `Directory.FreeRootFile` | modules/file_impl.cpp:328-338 | the recursive traversal frees children before their node, in the order whose count is proved |
| `Directory.RootCounts` | modules/file_impl.cpp:880-886 | the root of every kind of call is well counted, also when only its own entries are read |
| `Directory.RootFreedOnce` | modules/file_impl.cpp:328-338 | releasing the root frees every allocation of the call exactly once |
| `Directory.LoadRoot` | modules/file_impl.cpp:864-888 | the root is read, and its entries when it is a directory that opens; the request is left with the last result |
| `Directory.StatusesAreLast` | modules/file_impl.cpp:780-846 | over all entries, at every depth, the status of the request is the last result of a stat or a failing opendir |
| `Directory.UnreadableLastFails` | modules/file_impl.cpp:842-845 | the failing family: an unreadable entry fails the whole call when it comes last and is passed over in silence when a readable one follows |
| `Directory.ClosedLastFails` | modules/file_impl.cpp:828-847 | a directory that cannot be opened fails the whole recursive call when it is the last one tried; an entry without an app URI never does |
| `Directory.ClosedRootFails` | modules/file_impl.cpp:880-886 | a root that cannot be read or opened fails its call with that error |
| `Directory.ListDirectory` | modules/file_impl.cpp:864-994 | a listing from the file system to the array: it succeeds if and only if the last result of a stat or failing opendir does, else reports 301, 202 or 300; the items show exactly the files of the directory in order; everything allocated is freed once either way |
| `Directory.GetDirectory` | modules/file_impl.cpp:864-994 | the same for the item of a directory or file, with everything below it when asked for |
| `Downloads.TokenTellsCounter` | modules/request_impl.cpp:222-229 | the counter can be read back from a token, and before it the random number and the time, so tokens with different counters differ |
| `Downloads.FreshInEveryRun` | modules/request_impl.cpp:222-229 | in every run the next token is none that was issued, is listed, has ended or is remembered |
| `Downloads.CacheInEveryRun` | modules/request_impl.cpp:100-112 | in every run at most nine results are kept, all of ended transfers |
| `Downloads.CacheBound` | modules/request_impl.cpp:100-112 | inserting keeps at most nine entries and changes no other entry |
| `Downloads.SurvivesInsertionExactly` | modules/request_impl.cpp:100-112 | a new result survives its own insertion if and only if there is room or its token is not the first in the order of the map |
| `Downloads.LeqIsLexicographic` | modules/request_impl.cpp:104-110 | the order of the map is the lexicographic order of the characters |
| `Downloads.EndRemembers` | modules/request_impl.cpp:231-275 | what is remembered of an ending, and that no other entry changes |
| `Downloads.ReportsTell` | modules/request_impl.cpp:245-276 | what handlers set before and after an end are told for each ending, word by word |
| `Downloads.LateLikeEarlyExactly` | modules/request_impl.cpp:526-582 | in every run a handler set after the end, before eviction, is told the ending, and the same as a handler set before it if and only if the transfer was not cancelled |
| `Downloads.SameReportExactly` | modules/request_impl.cpp:231-284 | the same for one ending, over every handler |
| `Downloads.StepKeeps` | modules/request_impl.cpp:231-582 | every event keeps the token, list and cache invariants and the recorded endings |
| `Downloads.RequestContext.AddResult` | modules/request_impl.cpp:100-112 | inserts, and at ten entries drops the first key in map order |
| `Downloads.RequestContext.FirstKey` | modules/request_impl.cpp:104-110 | the least key of the map |
| `Downloads.RequestContext.Download` | modules/request_impl.cpp:411-524 | an unshared start first cancels the one before it and tells its handler; a start is accepted exactly when nothing speaks against it, gets a token never issued before and lists its request; its caller is told the token or the reason |
| `Downloads.RequestContext.RequestEnded` | modules/request_impl.cpp:231-284 | the end, also of a cancelled transfer, tells a handler that is set how it ended, is remembered unless it is evicted at once, and unlists the request; after its page left it only unlists |
| `Downloads.RequestContext.OnDownloadComplete` | modules/request_impl.cpp:526-582 | a handler is set on a listed request, told what is remembered, or told that the token is missing or unknown |
| `Downloads.OneUnsharedInEveryRun` | modules/request_impl.cpp:430-436 | in every run at most one listed download is not shared |
| `Downloads.ShareGoneExactly` | modules/request_impl.cpp:238-242 | in every run `shareInfo` leads to a listed unshared download or nowhere, if and only if no unshared start was refused and no unshared download ended after its page left |
| `PercentEncoding.DecodeEncode` | modules/net_utils.cpp:166-207 | decoding what was encoded gives back every byte string |
| `PercentEncoding.EncodeShape` | modules/net_utils.cpp:166-186 | the output is at most three times as long, and every percent sign in it starts an escape of two hex digits |
| `PercentEncoding.SafeExactly` | modules/net_utils.cpp:153-186 | what is left alone is exactly what RFC 3986 reserves or does not reserve in its sections 2.2 and 2.3, except the square brackets |
| `PercentEncoding.EscapeDecodes` | modules/net_utils.cpp:148-207 | an escape decodes to the byte of its two hex digits, in either case |
| `PercentEncoding.FromHexUndone` | modules/net_utils.cpp:148-151 | the value taken for any byte, by what gives the byte back |
| `PercentEncoding.TruncatedEscapes` | modules/net_utils.cpp:188-207 | a percent sign with fewer than two bytes behind it disappears and they stay |
| `PercentEncoding.DecodeFixedExactly` | modules/net_utils.cpp:188-207 | decoding changes nothing if and only if there is no percent sign |
| `PercentEncoding.FetchUrlIdempotent` | modules/fetch_impl.cpp:421-426 | encoding only what decoding leaves alone is idempotent |
| `PercentEncoding.UrlEncode` | modules/net_utils.cpp:166-186 | the loop fills its buffer with the encoding and a terminator, within bounds |
| `PercentEncoding.UrlDecode` | modules/net_utils.cpp:188-207 | the loop fills its buffer with the decoding and a terminator, within bounds, also on malformed escapes |
| `Utf8.IsValidUtf8` | modules/crypto_impl.cpp:560-596 | with a NUL at index `length` the loop terminates, reads nothing beyond it, and is true exactly when the bytes split into lead bytes with the right number of continuation bytes |
| `Utf8.Follows` | modules/crypto_impl.cpp:582-590 | the inner loop decides whether the announced continuation bytes are there |
| `Utf8.SegmentExactly` | modules/crypto_impl.cpp:568-590 | the segments byte by byte: ASCII, and leads from C0, E0 and F0 up to F7 with one, two and three continuation bytes |
| `Utf8.SplitsExactly` | modules/crypto_impl.cpp:560-596 | splitting from the left is possible if and only if any splitting is |
| `Utf8.AcceptedIsUtf8Exactly` | modules/crypto_impl.cpp:560-596 | every encoding of scalar values (section 3 of RFC 3629) is accepted, and a string is such an encoding if and only if it also meets the syntax of section 4 |
| `Utf8.SegmentIsScalar` | modules/crypto_impl.cpp:560-596 | a canonical segment is the encoding of its own scalar value |
| `Utf8.OverlongPasses` | modules/crypto_impl.cpp:568-580 | the failing instance: the overlong form of NUL is accepted |
| `Utf8.SurrogatePasses` | modules/crypto_impl.cpp:568-580 | the failing instance: an encoded surrogate is accepted |
| `Utf8.BeyondRangePasses` | modules/crypto_impl.cpp:568-580 | the failing instance: an encoded value beyond 10FFFF is accepted |
| `Utf8.NonCanonicalPasses` | modules/crypto_impl.cpp:560-596 | the whole family: every segment outside the syntax of section 4 of RFC 3629 is accepted and is not UTF-8 |
| `AppPath.RelativeToAbsolute` | modules/app_path.cpp:47-102 | the procedure with its loop over type names computes the first mapping |
| `AppPath.AbsoluteToRelative` | modules/app_path.cpp:104-148 | the procedure computes the second mapping |
| `AppPath.KnownExactly` | modules/app_path.cpp:47-102 | a type is accepted exactly when it begins with one of four words |
| `AppPath.AbsoluteExactly` | modules/app_path.cpp:47-102 | the absolute path of every accepted URI, written out, and nothing for any other type |
| `AppPath.WithoutScheme` | modules/app_path.cpp:47-70 | a text without the scheme is refused |
| `AppPath.RelativeValue` | modules/app_path.cpp:104-148 | the second mapping, written out by the first occurrences of the prefix, a slash and the package name |
| `AppPath.NothingToMap` | modules/app_path.cpp:117-131 | without the prefix, or without a slash behind it, there is nothing to map |
| `AppPath.RoundTripWithFile` | modules/app_path.cpp:47-148 | for every accepted URI with a file and every slash-free package name, the trip gives the URI back if and only if the type is not `tmp` and does not contain the package name |
| `AppPath.RoundTripWithoutFile` | modules/app_path.cpp:47-148 | without a file the trip adds a slash, under an exact condition |
| `AppPath.TmpUriIsLost` | modules/app_path.cpp:128-131 | the failing instance: the path of a `tmp` URI cannot be mapped back |
| `AppPath.PackageInTypeMangles` | modules/app_path.cpp:128-140 | the failing instance: a package name inside the type gives a mangled URI |
| `AppPath.PackageFound` | modules/app_path.cpp:120-140 | a package name the type does not contain is found exactly where it was put |

## Left out

- JSON objects, array buffers, callbacks, promises, interfaces and protobuf messages in the round trip: they convert one way only or through code outside the converters. JSON and callbacks are part of `Marshalling.AcceptedExactly`; array buffers, interfaces and protobuf nodes are not modelled at all.
- QuickJs.SurvivesExactly: rounding of 64-bit integers beyond what a double holds.
- Reinterpretation of the union in an optional descriptor and the rounding of floating-point defaults: a default is one number, one string and one pointer.
- Strings with embedded NULs, and properties found through the prototype chain: a JS object is a map from names to values.
- Converters.FillMember: addresses inside a block; a member converts in a cell that holds its slot, whose content is then written back through the pointer of the block.
- The handle that receives messages (onmessage, getReadyState) and a missing interface handle in the phone connection.
- InterconnectContexts.InterconnectContext.Send: the text of the message is a parameter that is present or not.
- The server side of the message transport (reply map, sessions), and the truncation of a reply object's address to int: identities are taken to be distinct.
- The values of sensor samples and their delivery to each subscriber; which sample is valid is a parameter.
- SystemSettings: settings after `Destroy`; what a subscription does with a message it is told of (its status and its JSON text).
- Registries.EventManager.AddEventCallback: event ids are taken to be distinct and positive; two descriptors sharing an id, or an id of zero, are not modelled.
- 32-bit overflow of counters (callback ids, download counter, reference counts).
- Calls from JS handlers back into the object that is calling them.
- IntrusiveList.ForEverySafe: does not repeat that a deleted node's links are null, which `IntrusiveList.VisitNode` states for each.
- Downloads.RequestContext.Download: an unshared start while the pointer to the previous one has outlived its request, where the source reads freed memory.
- Downloads: progress reports, the transfer itself, and file names taken from URLs.
- Directory.ListDirectory: a work item that the loop cancels before it runs.
- References.Engine.FreeFtValue: what the engine does with a value whose count reaches zero.
- AppPath: truncation at the path limit and the working directory of the desktop build.
- Cryptography, base64, the UI and single-call device modules, health and sensor modules, logging: they would add only easy members or repeat a pattern above.

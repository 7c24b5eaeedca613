# procframe: verified model

procframe turns protobuf services into handlers that can be served from a command line, over HTTP and over WebSocket. This project
models the parts of it that have to get state, order or precedence right, and proves what they promise:

- **The WebSocket v2 session protocol** (`transport/ws`). `WsServer` and `WsClient` are step relations: one label per atomic
  step of each goroutine (reader, handlers, writer, teardown), with Go's channel semantics, so that every interleaving is a
  sequence of labels. `WsSession` is the machine of one handler goroutine, `WsServerSafety` an inductive invariant of the
  server, `WsServerTheorems` what follows from it (token accounting, inbound conservation, exactly-one admission, output
  grammar, safe and terminating shutdown), `WsServerFrames` what the server makes of each inbound frame, `WsDialogue` what one
  session id sees of the server, and `WsEndToEnd` the composition of one client, two FIFO links and one server, with the
  end-to-end theorems for all four call shapes, in both directions. `WsScenario` and `WsRefusals` show that what these theorems
  allow does occur. `WsClientStream` has the stream objects in the caller's hands, `WsFrames` the frames and the error mapping.
- **The CLI command tree** (`internal/codegen/tree.go`, `transport/cli/runner.go`). `CommandTree` has the tree, insertion, pruning and
  dispatch as functions, with routing correctness; `CommandTreeNodes` has the same construction on nodes updated in place.
  `GlobalFlags` extracts `--json` and `--output` from argv and is proved against a grammar.
- **The interceptor chain** (`interceptor.go`), in `Interceptors`: composition laws, the onion law for decorators, and decorated and
  transparent calls of all four shapes.
- **Configuration** (`config/`): `Bootstrap` parses the flags at the front of argv and is proved against a grammar of rendered
  flags; `JsonOverlay` is the overlay of a config file; `ConfigFields` and `ConfigLoad` are the layered loader for any list of
  fields and any number of configs, with precedence and non-interference.

Concurrent code is modelled as a step relation. Sequential code that updates objects or variables is modelled by classes and loops,
proved against functions, about which the properties are then proved.

Assumptions, which stand for what the model cannot see: a request or response either decodes or it does not (`Config.decode`,
`Net.response`); user handlers of a session take finitely many stream actions and do not use the stream after returning; a value
other than zero survives the round trip through protojson (`ConfigFields.Faithful`); field names and JSON names of a message are
distinct (`ConfigFields.DistinctFields`). Environment, files and argv are parameters.

Places where the code does less than one might read into it, and what is proved instead:

- `validateDuplicatePaths` does not establish what `insertLeaf` needs. `CommandTree.DuplicateCheckIsNotEnough` gives two commands that
  pass the check and panic in one order, or lose a command in the other; `CommandTree.BuildableIffPrefixFree` gives the exact
  condition.
- `--config=` with an empty value does not count as an occurrence (`Bootstrap.EmptyConfigIsNotCounted`); the exact condition for
  repetitions is `Bootstrap.Good`, used in `Bootstrap.ParsingIsGrammatical`.
- A JSON `null` in the config file resets a field and does not satisfy `required` (`ConfigFields.Precedence`).
- With no active interceptor `InvokeUnary` returns a response beside an error as it is; otherwise it drops it
  (`Interceptors.TransparentUnary`).
- A unary or server-stream call whose request does not marshal has already sent its open frame and sends nothing more: the
  handler's session waits, with its token, until the connection ends (`WsEndToEnd.UnsentCallWaits`).
- Client ids repeat after 2^64 allocations (`WsClient.IdsRepeatAfterWrap`), so the client and end-to-end theorems are stated up to
  that many sessions.
- Duplicate opens and late messages produce error frames for an id that has, or had, a session. The output grammar is therefore
  stated for each run, not for each id on the wire.

To check: `dafny verify dfyconfig.toml`.

## Model

| member | source | states |
|---|---|---|
| WsFrames.StatusPreserved | transport/ws/errors.go:11-31 | A status anywhere in an error chain reaches the client with code, message and retryable flag; otherwise the mapper's, otherwise `internal` with the error's text: as an error frame with those three, read back as a `StatusError` with those three |
| WsFrames.StatusOfIsOutermost | errors.go:63-69 | The status extracted is that of the outermost `StatusError`, and there is none exactly if no layer has one |
| WsSession.ActKeepsInv | transport/ws/server.go:66-104 | Every action of a handler goroutine keeps the session invariant: channel conservation, output so far, admission so far |
| WsSession.ArriveKeepsInv | transport/ws/server.go:514-518 | Delivering or dropping a payload keeps the session invariant |
| WsSession.AcceptedIsSubsequence | transport/ws/server.go:514-518 | What a channel accepted is an in-order subsequence of what arrived, all of it unless some arrival met a full buffer |
| WsSession.ExactlyOneAdmission | transport/ws/server.go:68-104 | User code was entered exactly if the accepted sequence has one payload, which decodes; otherwise the whole output is one error frame, saying whether there was no request, more than one, or one that does not decode |
| WsSession.CompletedOutputGrammar | transport/ws/server.go:252-280 | A finished run has issued one word of its shape's grammar, with exactly one terminal frame, the last one |
| WsSession.RunningOutputGrammar | transport/ws/server.go:121-157 | A run in progress has issued message frames of its own id only, at most one for shapes with a single response |
| WsServerSafety.NextKeepsInv | transport/ws/server.go:295-329 | Every step of every goroutine keeps the server invariant |
| WsServerSafety.ReachableInv | transport/ws/server.go:295-329 | The invariant holds in every reachable interleaving |
| WsServerTheorems.NothingPanics | transport/ws/server.go:295-329 | No goroutine sends on a closed channel or closes one twice: a session's channel is open whenever a payload is about to be delivered to it, and `writeCh` whenever a frame is about to be written |
| WsServerTheorems.TokensBalance | transport/ws/server.go:428-487 | Tokens are sessions plus handlers between delete and release plus the reader's own; sessions never exceed the limit; no `<-sem` blocks |
| WsServerTheorems.DeleteRemovesOwnEntry | transport/ws/server.go:476-485 | The deferred delete removes its own session, never a newer one with the same id |
| WsServerFrames.OpenIsDecided | transport/ws/server.go:394-471 | An open frame starts a session if and only if its procedure is known, its shape right, a token free and its id unused; otherwise tokens, map and sessions are as before, and the error frame that follows is `not_found` for an unknown procedure, `invalid_argument` naming both shapes for a wrong one, `unavailable` and retryable without a token, `already_exists` for an id in use |
| WsServerFrames.FrameIsHandled | transport/ws/server.go:490-554 | Any other frame changes only the session of its id: a message is delivered, or dropped at 64 buffered or after a close; a close frame closes the channel; a cancel frame cancels the context and leaves map, token and channel as they were; without such a session a message is answered `not_found` and the others are ignored |
| WsServerFrames.CancelledByFrame | transport/ws/server.go:541-554 | While `readLoop` runs, a session in the map is cancelled if and only if a cancel frame for its id was read after its open frame |
| WsServerTheorems.InboundConservation | transport/ws/server.go:490-539 | Consumed plus buffered messages are the accepted ones, which are in order among the message frames between open and close; EOF comes after the last |
| WsServerTheorems.DropOnlyWhenFull | transport/ws/server.go:514-518 | A message is dropped exactly if 64 are buffered |
| WsServerTheorems.AdmissionInEveryRun | transport/ws/server.go:231-251 | Exactly-one admission, or the error for the reason of the rejection, in every interleaving, by close frame or by disconnect |
| WsServerTheorems.OutputInEveryRun | transport/ws/server.go:306-315 | What the writer dequeues for a run is an in-order subsequence of its word, and all of it if the context never ended |
| WsServerTheorems.WritesWaitAtBound | transport/ws/server.go:306-315 | A handler that writes waits exactly while 64 frames are queued, and gives up exactly if the context has ended |
| WsServerTheorems.FailedWriteIsFinal | transport/ws/server.go:381-391 | Any write may fail; its frame is then lost, and nothing is written after it in any continuation |
| WsServerTheorems.NoSessionAfterReadLoop | transport/ws/server.go:321-328 | Once `readLoop` has returned it has returned for good, and no continuation adds a session |
| WsServerTheorems.ShutdownUnblocksHandlers | transport/ws/server.go:363-378 | After `closeAllSessions` every running handler has a closed channel and a cancelled context; `writeCh` is closed only when no writer of frames is left |
| WsServerTheorems.NextLowersMeasure | transport/ws/server.go:323-329 | After `readLoop`, every step lowers a measure over handlers, buffered messages and queued frames |
| WsServerTheorems.NoHandlerBlocks | transport/ws/server.go:363-378 | After `closeAllSessions` every handler can take its next step |
| WsServerTheorems.SomeStepEnabled | transport/ws/server.go:295-329 | Until `serve` has returned, some goroutine can move |
| WsServerTheorems.ServeTerminates | transport/ws/server.go:295-329 | After `readLoop` every interleaving is bounded, and one that cannot be extended has returned with map, semaphore and queue empty |
| WsServerTheorems.CanAlwaysReturn | transport/ws/server.go:295-363 | From every reachable state there are steps after which `serve` has returned |
| WsDialogue.NextDialogue | transport/ws/server.go:394-443 | Each step keeps the dialogue of an id that was opened once |
| WsDialogue.DialogueInEveryRun | transport/ws/server.go:394-554 | What is written for such an id is a run's frames first and in order, or first the refusal of its open, whose code, message and retryable flag follow from procedure, shape and limit; only "session not found" may follow |
| WsDialogue.RequestDecided | transport/ws/server.go:233-251 | A session whose peer sends one request is decided on exactly that payload |
| WsClient.IdsCount | transport/ws/client.go:95-97 | The id of a session is `s-` and the decimal of the counter, which starts at one and wraps at 2^64 |
| WsClient.IdsRepeatAfterWrap | transport/ws/client.go:95-97 | Allocations get the same id exactly if they are 2^64 apart |
| WsClient.NextKeepsInv | transport/ws/client.go:41-77 | Every step of the client's goroutines and callers keeps the client invariant |
| WsClient.NothingPanics | transport/ws/client.go:54-74 | The read loop never sends on a closed channel, and teardown never closes one twice |
| WsClient.ClientRouting | transport/ws/client.go:95-166 | A session's channel received exactly the wire frames with its id read while it was registered, in order, less one in flight, which is given up only when the context has ended; frames are written in the order queued |
| WsClient.WaitsAtBounds | transport/ws/client.go:139-189 | The read loop waits for a receiver exactly while 64 frames are buffered for it, a sender for the write loop exactly while 64 are queued |
| WsClient.FailedWriteIsFinal | transport/ws/client.go:149-166 | Any write may fail; its frame is then lost, and nothing is written after it in any continuation |
| WsClient.TeardownCloses | transport/ws/client.go:54-74 | Channels are closed only after both loops have exited and the context has ended, and then those of all registered sessions |
| WsClient.TeardownProceeds | transport/ws/client.go:54-74 | After the read loop has stopped, the loops or the teardown goroutine can always take a step that brings the end of teardown nearer |
| WsClient.NothingDelaysTeardown | transport/ws/client.go:54-74 | No step of anyone, callers included, moves it further away |
| WsClient.CanAlwaysTearDown | transport/ws/client.go:41-77 | From every reachable state there are steps after which `done` is closed |
| WsClient.ClosedChannelDrains | transport/ws/client.go:117-144 | A closed channel only loses its buffered frames, one by one and in order, to its receiver, which can always receive and sees the closure after the last one and not before |
| WsEndToEnd.NextKeepsInv | transport/ws/call.go:10-118 | Every step of the composed system keeps its invariant |
| WsEndToEnd.NeverAlreadyExists | transport/ws/server.go:466-471 | With one `Conn` as its only peer the server never raises `already_exists` |
| WsEndToEnd.DeliveryConservation | transport/ws/client.go:117-144 | Frames queued for a call's session are, in order, those taken, buffered, in flight, on the link and in the write queue |
| WsEndToEnd.TakenOwnFrames | transport/ws/client_stream.go:140-165 | A caller only takes frames of its own run, or the refusal of its own open, never the later "session not found" |
| WsEndToEnd.UnaryCallsEndToEnd | transport/ws/call.go:10-29 | A unary call that returned got the refusal of its open, with its code, message and retryable flag, or the result of the only run with its id, which was invoked once with its own payload if that decodes and otherwise not at all and rejected with the reason |
| WsEndToEnd.CallsAreHeard | transport/ws/server.go:490-539 | Every run belongs to one call; what arrives at it is, in order and without gaps, what that call sent before its close, all of it once the channel is closed; a message is lost only at 64 buffered, and EOF comes after the last |
| WsEndToEnd.UnsentCallWaits | transport/ws/call.go:106-118 | A call whose request did not marshal leaves a run, if its open was admitted, that is never invoked and waits with its map entry and token |
| WsEndToEnd.CallsCanLeave | transport/ws/call.go:10-118 | Marshalling may always fail; a call that is over can always remove its session, and its id is then no longer registered |
| WsEndToEnd.ClientStreamsEndToEnd | transport/ws/call.go:59-79 | A client-stream call that returned got the refusal of its open, or the result of the only run with its id, invoked once, which heard what the caller sent |
| WsEndToEnd.StreamsEndToEnd | transport/ws/call.go:33-104 | A server-stream or bidi call ended with the refusal, with its run's own end after exactly the messages sent, or at the first undecodable message; the run heard what the caller sent |
| WsEndToEnd.ServerStreamsEndToEnd | transport/ws/call.go:33-57 | A server stream that ended in EOF saw exactly its handler's sends, and the handler was invoked once with the call's request |
| WsScenario.EveryCallCanHappen | transport/ws/call.go:10-104 | For any registered procedure of any shape, any decodable request, anything the caller says and its handler sends or fails to send, and any result that fits, there is a run in which the handler gets exactly that and the caller too |
| WsRefusals.EveryRefusalCanHappen | transport/ws/server.go:394-443 | For any call that cannot be admitted there is a run in which it is told the reason |
| WsClientStream.ReceiveResponse | transport/ws/client_stream.go:140-165 | The loop yields the first event that is not skipped |
| WsClientStream.ClientServerStream.Receive | transport/ws/client_stream.go:56-66 | Returns the next outcome and new state; after a terminal error reads nothing; removes the session at most once |
| WsClientStream.ClientServerStream.Close | transport/ws/client_stream.go:68-76 | Removes the session at most once in all, calls `sendCancel` once in all, and cancels the context |
| WsClientStream.ClientClientStream.CloseAndReceive | transport/ws/client_stream.go:94-100 | Returns the send error, or the first outcome, and removes the session |
| WsClientStream.ReceivesInOrder | transport/ws/client_stream.go:120-130 | Call by call the outcomes in order up to the first terminal one, then that one for ever without reading |
| WsClientStream.SeesUntilEnd | transport/ws/client_stream.go:140-192 | Whatever the events, the outcomes are the payloads up to the first event that ends the stream and then that end: the connection's error if the channel is closed, the context's error if it has ended, EOF for a close frame, an error frame's code, message and retryable flag, or why a message does not decode |
| WsClientStream.ReceivesUntilEnd | transport/ws/client_stream.go:120-192 | The same, call by call |
| WsClientStream.EofMeansClose | transport/ws/client_stream.go:140-165 | EOF is seen only if a close frame was read, after frames only, all of whose messages were given to the caller |
| WsClientStream.SeesWholeStream | transport/ws/client_stream.go:140-192 | From a completed run's frames the caller gets the payloads, then EOF or the error with code, message and retryable flag |
| CommandTree.InsertLeafAt | internal/codegen/tree.go:57-83 | Insertion puts the leaf at its path, drops what was above or below, and leaves other paths alone |
| CommandTree.InsertFailsOnLeaf | internal/codegen/tree.go:61-69 | Insertion panics exactly if a proper prefix of the path is a leaf |
| CommandTree.BuildableIffPrefixFree | internal/codegen/tree.go:31-55 | All commands end up at their paths without a panic if and only if no path repeats or extends another |
| CommandTree.DuplicateCheckIsNotEnough | internal/codegen/validate.go:17-32 | Commands that pass the duplicate check can panic, or be lost, depending on their order |
| CommandTree.DuplicateCheckMeans | internal/codegen/validate.go:17-32 | What the check does establish, for segments without spaces: that paths are distinct |
| CommandTree.PruneKeepsLeaves | internal/codegen/tree.go:95-105 | Pruning keeps every path's leaf |
| CommandTree.PruneRemovesDead | internal/codegen/tree.go:95-105 | After pruning every group but the root leads to a leaf |
| CommandTree.PruneIdempotent | internal/codegen/tree.go:95-105 | Pruning is idempotent, and the identity exactly on trees without dead groups |
| CommandTree.BuildNeedsNoPruning | internal/codegen/tree.go:53-54 | Pruning changes nothing on a tree made by insertions |
| CommandTree.OrderIndependent | internal/codegen/tree.go:31-55 | The tree does not depend on the order of services and methods |
| CommandTree.DispatchRuns | transport/cli/runner.go:172-262 | Dispatch runs a leaf with given arguments if and only if argv is its path followed by them, with no help flag in the way |
| CommandTree.DispatchAnswers | transport/cli/runner.go:208-262 | Every dispatch is answered by the last group argv leads to, or by the root if it is a leaf: help, no command, the unknown command by name, or one of its leaves |
| CommandTree.EveryCommandRuns | transport/cli/runner.go:172-262 | A command's path followed by arguments that do not start with a help flag runs it with exactly those |
| CommandTree.OnlyCommandsRun | transport/cli/runner.go:223-262 | Whatever runs was asked for by its path |
| CommandTreeNodes.InsertLeaf | internal/codegen/tree.go:57-83 | In place: the nodes hold the tree with the leaf inserted, or the call fails where the source panics |
| CommandTreeNodes.PruneDeadGroups | internal/codegen/tree.go:95-105 | In place, visiting children in any order: the nodes hold the pruned tree |
| CommandTreeNodes.BuildTree | internal/codegen/tree.go:31-55 | The nodes hold the tree of the exposed methods, or the call fails where the source panics; it does not fail, and every exposed method has its place, if no path repeats or extends another |
| CommandTreeNodes.MethodsInPlace | internal/codegen/tree.go:31-55 | With distinct procedures, every exposed method stands at its service's path followed by its own, and nothing else does, if and only if no such path repeats or extends another |
| CommandTreeNodes.MethodsRun | internal/codegen/tree.go:31-55 | In such a tree, a service's path, a method's path and arguments run that method with those arguments |
| CommandTreeNodes.OnlyMethodsRun | internal/codegen/tree.go:31-55 | Whatever runs is an exposed method that argv asked for by its service's path and its own |
| CommandTreeNodes.NodesDetermineTree | internal/codegen/tree.go:7-14 | Nodes below a root make up at most one tree |
| GlobalFlags.PreParseGlobalFlags | transport/cli/runner.go:273-300 | The loop computes the outcome of argv's lexemes |
| GlobalFlags.RenderLex | transport/cli/runner.go:331-345 | Reading argv as lexemes loses and reorders nothing |
| GlobalFlags.LexRender | transport/cli/runner.go:331-345 | argv is read in only one way |
| GlobalFlags.EvaluateMeans | transport/cli/runner.go:273-329 | Success with what the lexemes mean if all are good, `text` and `json` being the only formats; otherwise the first offence is the error |
| GlobalFlags.ExtractionIsGrammatical | transport/cli/runner.go:273-345 | Success if and only if argv interleaves the remaining arguments, in order, with at most one `--json` and one `--output` group |
| GlobalFlags.RerunIsIdentity | transport/cli/runner.go:273-300 | Extracting again from the remaining arguments changes nothing |
| GlobalFlags.FlagAnywhere | transport/cli/runner.go:273-345 | A flag may be inserted between any two lexemes, in either form, with the same result |
| GlobalFlags.FlagAmongPlainArgs | transport/cli/runner.go:273-345 | A flag at any position of flag-free arguments is extracted and the arguments remain |
| Interceptors.ChainInterceptors | interceptor.go:212-221 | The loop builds the chain with the first interceptor outermost |
| Interceptors.ChainConcat | interceptor.go:212-221 | A chain of two lists is the chain of the first around the chain of the second |
| Interceptors.NilAnywhere | interceptor.go:214-217 | A nil interceptor anywhere changes nothing |
| Interceptors.OnionLaw | interceptor.go:212-221 | The handler sees requests through all receive functions first to last, the transport sees responses through all send functions last to first |
| Interceptors.DecoratedUnary | interceptor.go:87-128 | The handler runs at most once, on what the request through all receive functions holds, message and metadata; the caller gets what the response through all send functions holds; a nil request, or one or a response of another type, is an internal error |
| Interceptors.DecoratedClientStream | interceptor.go:130-159 | Each message, and the one response, passes all decorators on its way |
| Interceptors.DecoratedServerStream | interceptor.go:161-190 | The request and each response pass all decorators on their way |
| Interceptors.DecoratedBidi | interceptor.go:192-210 | Each message in either direction passes all decorators on its way |
| Interceptors.AnsweredUnary | interceptor.go:87-128 | An interceptor that answers without calling on: the handler does not run, and the caller gets what the answer holds, with its metadata, if it is of the response type; another type or a nil interface is an internal error, and with an error there is no response |
| Interceptors.AnsweredClientStream | interceptor.go:130-159 | The same for client-stream calls |
| Interceptors.UnaryConnection.Receive | interceptor.go:311-317 | The request once, then EOF |
| Interceptors.UnaryConnection.Send | interceptor.go:319-329 | Keeps what the message holds as the result, if it is of the response type; a nil message changes nothing, any other is an internal error |
| Interceptors.TransparentUnary | interceptor.go:87-128 | Behind transparent interceptors the handler runs once, with the same error, and the same response unless there is an error |
| Interceptors.TransparentClientStream | interceptor.go:130-159 | The handler reads the transport itself; error and response as for unary calls |
| Interceptors.TransparentServerStream | interceptor.go:161-190 | The handler gets the request and writes to the transport itself, except for responses without a message |
| Interceptors.TransparentBidi | interceptor.go:192-210 | The handler talks to the transport itself, except for responses without a message |
| Interceptors.ForwardsWellFormed | interceptor.go:380-417 | The transport is asked to send exactly the handler's well-formed responses, in order |
| Bootstrap.BuildAllowed | config/bootstrap.go:62-74 | Accepts exactly lists of valid specs and returns their names, otherwise the first error |
| Bootstrap.SpecsAreValid | config/bootstrap.go:133-144 | Specs are accepted if and only if none is nil and every name is nonempty, without leading dashes and without `=` |
| Bootstrap.FirstSpecIsReported | config/bootstrap.go:62-74 | The error is that of the first spec that is nil or whose name is empty, starts with dashes or contains `=` |
| Bootstrap.BootstrapResult.Apply | config/bootstrap.go:76-89 | Updates the result, or reports a repetition and leaves it as it was |
| Bootstrap.ParseBootstrapArgs | config/bootstrap.go:34-60 | The loop computes the outcome of the items at the front of argv |
| Bootstrap.ParsingIsGrammatical | config/bootstrap.go:34-127 | Success if and only if the specs are valid and argv is rendered known flags, none repeated, then the rest; consumed tokens followed by the rest are argv |
| Bootstrap.MissingIsGrammatical | config/bootstrap.go:114-131 | A value is reported missing if and only if good flags are followed by a known flag that ends argv or precedes another flag |
| Bootstrap.RoundTrip | config/bootstrap.go:91-127 | Rendered flags in any order and either form, whatever their values contain, parse to exactly those values and the rest |
| Bootstrap.EvaluateMeans | config/bootstrap.go:76-89 | The first repeated flag is the error |
| Bootstrap.EmptyConfigIsNotCounted | config/bootstrap.go:77-82 | An empty `--config=` may be followed by another |
| JsonOverlay.ParseOverlay | config/file.go:146-177 | Fails if and only if two keys share a canonical name, and names two such keys; otherwise yields the one overlay there is, whatever the map order |
| JsonOverlay.MergeOverlay | config/file.go:68-83 | Fails if and only if a value does not decode; otherwise the decoded values laid over the base, whatever the map order |
| ConfigFields.ApplyEffect | internal/gen/test/v1/config.proc.go:29-126 | A source succeeds if and only if all its values parse, and then replaces exactly its fields |
| ConfigFields.MergeFileEffect | internal/gen/test/v1/config.proc.go:18-27 | The file merge succeeds exactly on good files and sets exactly the file's fields, marking those that are not null |
| ConfigFields.SpellingsOf | config/file.go:237-254 | A key spells a field if and only if it is its name or its JSON name |
| ConfigFields.Precedence | internal/gen/test/v1/config.proc.go:18-133 | A given flag's value, else that of a set variable, else the file's entry with null as zero, else the default, else zero; success if and only if all values parse and every required field is supplied by other than a null |
| ConfigFields.FileEntryIs | config/file.go:146-177 | The file's entry for a field is the one under its name or its JSON name |
| ConfigFields.LoadErrors | internal/gen/test/v1/config.proc.go:18-133 | The error reported is that of the first phase that fails and in it of the first field: a default, the file, a variable or a flag that does not parse, or a required field that nothing supplies |
| ConfigLoad.ConfigMessage.ApplyFrom | internal/gen/test/v1/config.proc.go:48-101 | In place: the fields in order, up to the first that does not parse |
| ConfigLoad.ConfigMessage.ApplyFile | internal/gen/test/v1/config.proc.go:18-27 | In place: the file merge and the presence marks |
| ConfigLoad.ConfigMessage.ValidateRequired | internal/gen/test/v1/config.proc.go:128-133 | The first required field that is not present is the error |
| ConfigLoad.DetectConflicts | config/load.go:165-195 | A conflict if and only if two configs share an environment variable or a flag is declared twice |
| ConfigLoad.LoadInto | config/load.go:26-68 | The phases in order over all configs, in place |
| ConfigLoad.CompositeIsEachAlone | config/load.go:26-117 | Loading together succeeds with given states if and only if each config by itself loads its state from its own share of the values |
| ConfigLoad.LoadedValues | config/load.go:26-117 | After loading any number of configs, a field whose flag was given holds that value, else one whose variable is set holds that, else its file entry, default or zero |
| ConfigLoad.GivenFlagDecides | config/load.go:26-117 | A flag rendered at the front of argv, in either form, is the value of its field in the loaded config, and the rest of argv is returned |
| ConfigLoad.AllLoadErrors | config/load.go:26-117 | The error reported is that of the first phase that fails, in it of the first config, and in that of the first field: conflict, defaults, argv, a file for several configs, the file, environment, flags, required fields |
| ConfigLoad.SharesPartition | config/load.go:165-204 | For accepted configs the shares are disjoint and every given flag belongs to one |

## Left out

- WebSocket, HTTP, Connect and JSON libraries: payloads are opaque, decoding may fail, and frames that do not parse are one kind of
  junk; the failure of `json.Marshal` inside `writeFn` is not modelled.
- `transport/connect`, text generation, descriptor extraction, help text, exit codes and secret redaction.
- Handler panics, goroutines started by handlers, and a negative `maxInflight`.
- Concurrency inside one handler, and more than one receiver of one client stream.
- Liveness other than shutdown: a cancel frame does not wake a unary handler that waits for its request, a slow receiver can block
  the client's read loop, and calls after a disconnect may block; the code promises nothing there.
- Cancel frames, disconnects and junk in the end-to-end composition; `WsServer` and `WsClient` have them.
- Flag sets of groups and leaves in the runner, and leaves without a `Run` function.
- Summaries, `Hidden` and `BindInto` of command nodes.
- Numeric fidelity of the file merge; floating-point, bytes, list and map fields as kinds of values.
- `normalizeJSONFieldParsers`: the parsers are given under canonical names, as the generated code passes them.
- `collectSpecs`, which finds the configs by reflection.
- Errors of `Send` and `CloseSend` on a client's stream whose message does not marshal: nothing is sent and nothing changes.
- Interceptors.TransparentServerStream: the handler is a script with a bound on its operations; the bound is arbitrary, so every
  run that ends is covered, but a handler that never returns is not.
- Interceptors.TransparentClientStream: the same bound on the handler's operations.
- Interceptors.TransparentBidi: the same bound on the handler's operations.
- Interceptors.DecoratedServerStream: the same bound on the handler's operations.
- Interceptors.DecoratedClientStream: the same bound on the handler's operations.
- Interceptors.DecoratedBidi: the same bound on the handler's operations.
- WsClientStream.ClientServerStream.Receive: what the select of a receive yields is given as a sequence of events; `WsClient` has the
  channel and its senders.
- WsServerTheorems.ServeTerminates: each handler has a finite budget of stream actions, fixed when its session starts.

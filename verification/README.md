# Rupicola: a verified model

Rupicola is a JSON-RPC server whose methods run configured programs. This project models three parts of it and
proves what they promise.

**The response engine.** A request is served by a main goroutine (`process`, then `Close`), an invoking goroutine,
a context that may expire and a grace timer. They share a responder: the RPC responder buffers the output and emits
one object, the `2.0+s` responder re-frames arbitrary writes into a header, data frames and one footer or error, and
the legacy responder passes bytes through. Below them sit a limited writer and a JSON encoder that keeps its first
write error until it is recreated.

- `Wire`, `Channels`: frames, errors, the limiter and the encoder as values. `Writers`, `Responders`, `Requests`: the
  objects of the program, every method tied to the value semantics in `Streaming`, `RpcReply`, `LegacyReply`,
  `Engine` and `Sequential`.
- `Framing`, `LineMode`, `ChunkMode`: lines and blocks of a byte stream, and why the cut into writes does not matter.
- `Engine`: the request as a protocol whose steps interleave freely. `ExactlyOne`: one response per RPC request in
  every interleaving. `Sequential`: in time every interleaving computes the sequential call. `Answers`,
  `StreamAnswers`, `Agreement`: closed forms of what is sent. `Expiry`: what a hanging call sends. `Overtaken`,
  `CutStreams`: what is sent in every other expired run. `Terminals`: footer and error frames.
- `Limits`: the response limit and the refused requests, told by what a client receives.
- `Registry`: methods, limits, timeouts, the configured processor. `Service`: from the configuration to the client.

**The argument templates.** `Templates` and `TemplateConfig`: the recursive evaluator with phantom parameters, its
leaf-by-leaf meaning, flattening, and the loop that reuses one buffer. `Validation`: the static check and what it
guarantees.

**The configuration loader.** `Merge`: the right-biased deep merge. `Includes`, `Loader`: the stack-driven traversal
of included files against a recursive one. `Numerals`, `FileMode`, `Positional`: digits read as octal file modes and
as names of positional parameters.

Encoded objects are tagged values whose length is an arbitrary function of the value (`Codec`), at least 1 and at most
the largest 64-bit integer (`Sane`). Responder methods are atomic steps of the protocol, and `Close` reads the stored
error once. What a method does (fail, return a value, or hand over a reader that yields pieces and then ends or fails)
is a parameter, and so are file contents and the lookup of include entries. A run is in time if it does not expire, or
if it expires after the method has returned and main still sees the worker end before it notices the expiry.

Where the code and its documentation differ, the model follows the code:

- README.md:42-43 says that the first definition wins and that includes nest at most 10 deep; in the code the file
  visited later wins and there is no depth limit (`Loader.EndlessNeverEnds`).
- README.md:184-190 says that an argument using a missing optional parameter is skipped; in the code only a phantom
  reference skips its argument, a plain reference to a missing parameter contributes no text (`Templates.ArgMeaning`).
- README.md:16 says that positional parameters are not supported; the code names them "1", "2" and so on
  (`Positional.ByPosition`).

Three expected properties are false as they stand, and the exact condition is proved instead:

- A terminal frame is always the last one, unless the method itself returns the plain string "Done", which reads as
  the footer (`Terminals.AlwaysLastIffNoImpersonation`).
- An expired RPC call is answered with an error or with what the method returned, unless the method returns too late
  and main notices the end of the worker before the expiry: then the answer is an empty success
  (`Overtaken.EveryRpcAnswer`, `Overtaken.LateCallSucceeds`).
- The effective timeout is the smaller of the global and the method's one, unless they have opposite signs
  (`Registry.EffectiveTimeout`).

## Model

| member | source | states |
|---|---|---|
| `Channels.LimiterConserves` | rupicolarpc/rupicolarpc.go:329-346 | Over any writes, whatever part of each the sink reports, allowance left plus bytes delivered is the limit, and neither goes out of range |
| `Channels.SendAllMeaning` | rupicolarpc/rupicolarpc.go:338-346 | Frames encoded in a row reach the sink up to the longest prefix that fits; the limit error comes exactly if they do not all fit |
| `Writers.LimitedWriter.Write` | rupicolarpc/rupicolarpc.go:338-346 | A write is admitted whole or rejected with nothing delivered; the allowance drops by what the sink reports, and the error of the sink is passed on |
| `Writers.Encoder.Encode` | rupicolarpc/respones.go:77-87 | One object is one write, and the first failure sticks |
| `Writers.BaseResponse.constructor` | rupicolarpc/respones.go:43-51 | A new responder answers to a null id until it is given one |
| `Writers.BaseResponse.MaxResponse` | rupicolarpc/respones.go:82-87 | A new limit also clears the error the encoder kept |
| `Writers.BaseResponse.Write` | rupicolarpc/respones.go:68-70 | Raw bytes go through the limiter unchanged |
| `Responders.StreamingResponse.constructor` | rupicolarpc/streaming.go:19-28 | An open stream that has not sent its header |
| `Responders.StreamingResponse.Commit` | rupicolarpc/streaming.go:41-59 | Sends the buffer as one data frame and empties it, even if the send fails |
| `Responders.StreamingResponse.Write` | rupicolarpc/streaming.go:65-164 | Refines the value semantics of a write in both modes, with the count and the error |
| `Responders.StreamingResponse.WriteLines` | rupicolarpc/streaming.go:87-126 | The loop over split pieces, with the dangling line in the buffer |
| `Responders.StreamingResponse.WriteChunks` | rupicolarpc/streaming.go:127-163 | Fills the buffer to a block, cuts whole blocks, keeps the rest |
| `Responders.StreamingResponse.WriteWholeBlocks` | rupicolarpc/streaming.go:141-149 | The loop that cuts blocks while more than a block is left |
| `Responders.Remainder` | rupicolarpc/streaming.go:129 | The count modulo the block size is what misses to a full block, and 0 for an empty or a full buffer |
| `Responders.StreamingResponse.SetResponseError` | rupicolarpc/streaming.go:166-185 | Flushes, lifts the limit, closes and sends the error; nothing if already closed |
| `Responders.StreamingResponse.SetResponseResult` | rupicolarpc/streaming.go:187-197 | Flushes and sends a result; nothing if already closed |
| `Responders.StreamingResponse.Close` | rupicolarpc/streaming.go:30-40 | Flushes, sends the footer unless closed, and stays open only if flushing fails |
| `Responders.RpcResponse.constructor` | rupicolarpc/rpcresponse.go:19-29 | Everything is buffered behind a limiter |
| `Responders.RpcResponse.Write` | rupicolarpc/rpcresponse.go:61-66 | Output is buffered until a result or an error is set |
| `Responders.RpcResponse.SetResponseError` | rupicolarpc/rpcresponse.go:68-83 | An error replaces the buffer past the limiter; none for a notification, and none once the answer is sent |
| `Responders.RpcResponse.SetResponseResult` | rupicolarpc/rpcresponse.go:85-98 | Only the first result is accepted, and it must pass the limiter |
| `Responders.RpcResponse.Close` | rupicolarpc/rpcresponse.go:37-59 | The first close wraps buffered output in a result and hands the buffer to the transport; later ones do nothing |
| `Responders.LegacyStreamingResponse.Write` | rupicolarpc/respones.go:68-70 | Bytes pass unchanged through the limiter |
| `Responders.LegacyStreamingResponse.SetResponseResult` | rupicolarpc/legacystreaming.go:21-33 | Texts and signed integers, in decimal, are written as text; other values are dropped |
| `LegacyReply.PrintsResults` | rupicolarpc/legacystreaming.go:21-33 | Within the limit a text adds itself and a number its decimal spelling, with a minus sign exactly if it is negative and no leading zero; any other value adds nothing |
| `LegacyReply.PassesThrough` | rupicolarpc/legacystreaming.go:12-14 | The bytes sent are those of the writes up to the first that overruns the limit; non-empty writes all pass exactly if their total fits |
| `Framing.SplitAfter` | rupicolarpc/streaming.go:88 | The pieces concatenate to the write; each but the last ends in its only newline, and the last has none |
| `Framing.ShownRebuilds` | rupicolarpc/streaming.go:87-126 | The shown lines joined by newlines, and one bit, are the stream |
| `Framing.LinesHoldNoNewline` | rupicolarpc/streaming.go:98-110 | No frame of a line stream holds a newline |
| `Framing.BlocksMeaning` | rupicolarpc/streaming.go:127-163 | Canonical blocks concatenate to the input, are full but for the last, and the last has 1 to `chunkSize` bytes |
| `Framing.BlocksUnique` | rupicolarpc/streaming.go:127-163 | Full blocks with a short rest can only be the canonical cut |
| `LineMode.WritePiecesIsFeed` | rupicolarpc/streaming.go:87-126 | A write, cut at newlines, acts like its bytes one by one, and counts them all unless it fails |
| `LineMode.FeedAppend` | rupicolarpc/streaming.go:87-126 | Feeding is independent of where the stream is cut |
| `LineMode.FeedSendsLines` | rupicolarpc/streaming.go:87-126 | What is sent are the complete lines of buffer and input, up to the first that does not fit |
| `LineMode.WriteAllMeaning` | rupicolarpc/streaming.go:65-126 | Any writes to a fresh stream send the header and the lines of their concatenation, up to the first failure, limit included |
| `LineMode.LineRunMeaning` | rupicolarpc/streaming.go:30-126 | Writes then close succeed exactly if header, lines, tail and footer fit together, and then send exactly these |
| `LineMode.CloseSendsTail` | rupicolarpc/streaming.go:30-59 | Closing sends the buffered rest and the footer, and fails exactly if one of them does not fit |
| `ChunkMode.WriteBlocksSends` | rupicolarpc/streaming.go:127-163 | A write sends the blocks it completes in order and keeps the rest unless one fails |
| `ChunkMode.WriteKeepsBlocks` | rupicolarpc/streaming.go:65-163 | Any write to an open stream, the first one and one to a stuck encoder included: its frames are the header if due and full blocks, the buffer stays within a block, blocks and buffer are what was accepted; after a failure a leading part was sent |
| `ChunkMode.RunBlocksMeaning` | rupicolarpc/streaming.go:127-163 | The same over any number of writes |
| `ChunkMode.ChunkRunMeaning` | rupicolarpc/streaming.go:30-163 | Whatever the cut into writes, a run succeeds exactly if header, canonical blocks and footer fit, and then sends exactly these |
| `Wire.ErrorObject` | rupicolarpc/rupicolarpc.go:186-196 | A JSON-RPC error is kept, any other becomes an internal error with its text as data |
| `Engine.EveryRunEnds` | rupicolarpc/rupicolarpc.go:509-595 | Every interleaving is bounded, and none stops before the request is finished, even if the context never expires |
| `ExactlyOne.RunKeepsInv` | rupicolarpc/rupicolarpc.go:509-648 | The invariant behind the next row holds along every interleaving, and a finished request's output is frozen |
| `ExactlyOne.ExactlyOneResponse` | rupicolarpc/rupicolarpc.go:509-648 | In every interleaving with expiry and grace timer: nothing is sent before the end, then exactly one response with the request's id, none for a nil id pointer, and later worker steps change nothing |
| `Sequential.StepKeepsRemaining` | rupicolarpc/rupicolarpc.go:523-648 | No step but a timeout or an expiry before the return of the method changes what the request will finally send |
| `Sequential.InTimeRunIsSequential` | rupicolarpc/rupicolarpc.go:509-648 | Every run that does not expire, and every other in which main does not give up waiting and the method returns before the expiry, ends as the sequential call does, for all three responders |
| `Answers.RpcRefinesAnswer` | rupicolarpc/rupicolarpc.go:509-648 | In time an RPC request sends a pure function of request, outcome and limit: errors give an error object, a reader gives a result exactly if its total fits, otherwise the limit error is sent |
| `Answers.ServeRpc` | rupicolarpc/rpcresponse.go:37-98 | The same of the sequential call |
| `Overtaken.StepKeepsUndisturbed` | rupicolarpc/rupicolarpc.go:572-648 | Until main reads the stored error, the worker goes on as if alone, and that error is its own or the timeout |
| `Overtaken.EveryRpcAnswer` | rupicolarpc/rupicolarpc.go:509-648 | Every finished interleaving, expired or not: the answer of the method or the timeout error, never a part of the output; if the method returns too late, the timeout error or an empty success, as main notices the expiry or the end of the worker |
| `Overtaken.LateCallSucceeds` | rupicolarpc/rupicolarpc.go:572-616 | The empty success does arise, for every method |
| `Expiry.HangingRpcTimesOut` | rupicolarpc/rupicolarpc.go:572-595 | An RPC call whose method makes no further step is answered with the timeout error, whatever it had written |
| `Expiry.HangingStreamTimesOut` | rupicolarpc/rupicolarpc.go:572-595 | A streamed call that hangs delivers what it sent, what is still buffered, and the timeout error once |
| `StreamAnswers.CloseAfterError` | rupicolarpc/rupicolarpc.go:509-521 | Closing an open stream with an error flushes the buffer and sends that error once, even if the encoder was stuck on the limit |
| `StreamAnswers.ServeStreams` | rupicolarpc/streaming.go:30-126 | The frames of a reader's output depend on its bytes, its end and the limit only |
| `StreamAnswers.StreamRefinesAnswer` | rupicolarpc/rupicolarpc.go:509-648 | In time every interleaving of a streamed or upgraded request sends exactly its closed form |
| `CutStreams.WriteFlows` | rupicolarpc/streaming.go:65-126 | A write to a stream that has sent the lines of some bytes and buffers their tail leaves one that has done so for these bytes and its own, or stalls within them |
| `CutStreams.EveryStreamAnswer` | rupicolarpc/rupicolarpc.go:509-648 | Every finished interleaving, expired or not: the closed form, or a part of the output followed by the timeout error; if the method returns too late, the timeout error or the footer alone |
| `CutStreams.EveryStreamIsSound` | rupicolarpc/rupicolarpc.go:509-648 | In every finished interleaving, unless the method returns the plain string "Done", the joined payloads are a leading part of the output, and there is exactly one terminal frame, or none because the limit cuts the footer of a run without error |
| `Terminals.CallsKeepInv` | rupicolarpc/streaming.go:30-197 | In both modes a closed stream has an empty buffer and is changed by no call; an open one sends no terminal frame without closing |
| `Terminals.NothingFollowsTheTerminal` | rupicolarpc/rupicolarpc.go:509-648 | In every interleaving a terminal frame is the last thing sent, and later steps add nothing |
| `Terminals.AlwaysLastIffNoImpersonation` | rupicolarpc/streaming.go:34-37 | The row above holds exactly unless the method returns the plain string "Done" |
| `Terminals.FooterIsNotLast` | rupicolarpc/streaming.go:187-197 | The interleaving in which it fails |
| `Terminals.OneTerminalUnlessCutShort` | rupicolarpc/streaming.go:30-40 | In time there is exactly one terminal frame, and none exactly if the run has no error and the limit has room for the output but not for tail and footer |
| `Agreement.LegacyRefinesAnswer` | rupicolarpc/legacystreaming.go:12-33 | In time every interleaving of a legacy stream shows the fitting writes and nothing else |
| `Agreement.LegacyShowsLeadingPart` | rupicolarpc/rupicolarpc.go:509-648 | At any time of any interleaving, expired or not, a legacy stream has shown a leading part of the output, and later steps continue it |
| `Agreement.UpgradeCarriesTheSameBytes` | rupicolarpc/rupicolarpc.go:438-447 | The data frames of the upgraded stream, joined by newlines, and one bit are the bytes of the legacy stream |
| `Agreement.ServeAnswers` | rupicolarpc/rupicolarpc.go:691-707 | The closed form for a request of any kind |
| `Requests.Responser.constructor` | rupicolarpc/rupicolarpc.go:422-436 | The responder for each method type |
| `Requests.JsonRpcRequest.EnsureProtocol` | rupicolarpc/rupicolarpc.go:438-447 | Only a legacy stream is upgraded, on the same transport, and only for `2.0+s` |
| `Requests.JsonRpcRequest.Copy` | rupicolarpc/rupicolarpc.go:639-642 | Copying stops at the first error or short write |
| `Requests.JsonRpcRequest.Invoke` | rupicolarpc/rupicolarpc.go:89-96 | One outcome becomes one call on the responder and one stored error |
| `Requests.JsonRpcRequest.Process` | rupicolarpc/rupicolarpc.go:523-594 | Reading errors, validity, lookup, limit and invocation in this order |
| `Requests.JsonRpcRequest.Close` | rupicolarpc/rupicolarpc.go:509-521 | A stored error is reported with the limit lifted before the responder is closed |
| `Requests.ProcessContext` | rupicolarpc/rupicolarpc.go:691-707 | What arrives at the transport is the closed form of the request |
| `Limits.RpcReaderLimit` | rupicolarpc/rupicolarpc.go:544 | A limit of n bytes lets a reader of at most n bytes through and answers a longer one with the limit error; 0 and limits above 2^63-1 stand for 2^63-1 |
| `Limits.RpcResultLimit` | rupicolarpc/rupicolarpc.go:544 | The same of a plain result, which counts with its encoding |
| `Limits.StreamReaderLimit` | rupicolarpc/rupicolarpc.go:544 | A stream shows the longest leading part of its frames within n bytes, with the limit error behind it if header and lines do not fit |
| `Limits.LegacyReaderLimit` | rupicolarpc/rupicolarpc.go:544 | A legacy stream shows the longest run of leading writes within n bytes |
| `Limits.LegacyResult` | rupicolarpc/legacystreaming.go:21-33 | What the client of a legacy stream sees of a plain result |
| `Limits.Refusals` | rupicolarpc/rupicolarpc.go:523-542 | Reading errors, unknown versions, empty names and unknown methods are answered, in this order, with their error codes, for each kind of responder |
| `Registry.OthersDoNotMatter` | rupicolarpc/rupicolarpc.go:378-404 | What a name and a type resolve to depends only on events about them and on the defaults of the type |
| `Registry.LastRegistrationWins` | rupicolarpc/rupicolarpc.go:378-404 | In any history the last registration under a key decides the invoker; its limits are the last overrides since, else the defaults at the time of the registration |
| `Registry.FoundIffRegistered` | rupicolarpc/rupicolarpc.go:667-689 | Something is found under a key exactly if it was ever registered |
| `Registry.DefaultIsLast` | rupicolarpc/rupicolarpc.go:402-404 | A default timeout is the one set last; default sizes never change |
| `Registry.Processor.constructor` | rupicolarpc/rupicolarpc.go:407-420 | Default limits per type, no method |
| `Registry.Processor.AddMethodNew` | rupicolarpc/rupicolarpc.go:378-391 | The last registration wins and copies the defaults of its time; no other method changes |
| `Registry.Processor.OverrideTimeout` | rupicolarpc/rupicolarpc.go:98-102 | An override through a handle reaches its method alone |
| `Registry.Processor.OverrideSize` | rupicolarpc/rupicolarpc.go:104-109 | An override through a handle reaches its method alone |
| `Registry.Processor.OverrideStale` | rupicolarpc/rupicolarpc.go:384-390 | A handle replaced by a later registration no longer reaches the registry |
| `Registry.Processor.ExecutionTimeout` | rupicolarpc/rupicolarpc.go:402-404 | A new default does not touch methods already registered |
| `Registry.Processor.Method` | rupicolarpc/rupicolarpc.go:667-689 | Finds what was registered last under the name and type; only a streaming request falls back to the legacy type |
| `Registry.EffectiveTimeout` | rupicolarpc/rupicolarpc.go:546-565 | The deadline is the smaller of two timeouts, 0 being none, exactly unless they have opposite signs |
| `Registry.ProcessorFromConfig` | processor.go:15-39 | Whatever the order of the methods, exactly the configured ones are registered, streamed ones as legacy streams and the others for RPC, each with its own limits and the default where its own is negative |
| `Service.ConfiguredRequest` | processor.go:21-37 | An RPC client gets the answer the configuration promises; a method configured as streamed is not found by RPC |
| `Positional.ByPosition` | rupicolarpc/rupicolarpc.go:150-155 | The names are exactly the decimal numerals from 1 to the number of values, and each stands for the value at that place |
| `Templates.EvaluateArgs` | config.go:550-600 | The evaluator appends the text of the node to the shared buffer, also up to a failure |
| `Templates.EvaluateChildren` | config.go:582-590 | Children are evaluated in order, and one skip skips the whole |
| `Templates.EvalIsLeaves` | config.go:550-600 | Nesting has no meaning: a template evaluates like its leaves in order |
| `Templates.SimplifyKeepsMeaning` | README.md:194-196 | Flattening and joining adjacent texts keep text, skip flag and failure for all parameters |
| `Templates.SimplifyIsSimple` | README.md:194-196 | The result has no nested list and no two texts side by side |
| `Templates.ArgMeaning` | config.go:550-600 | An argument is the texts of its leaves, hidden exactly if a phantom leaf other than `self` names an absent parameter |
| `Templates.ArgListMeaning` | rpcmethod.go:41-53 | The list is, in order, the meanings of the arguments that are not hidden |
| `Templates.PrepareArguments` | rpcmethod.go:41-53 | The loop with one buffer builds that list; nothing written for a skipped argument leaks |
| `Templates.PlainReference` | config.go:558-583 | Between two fixed texts a reference gives the text of its parameter, and none if that is absent or empty |
| `Templates.PhantomReference` | config.go:558-583 | A phantom gives no text; the argument is there exactly if the parameter is, and otherwise leaves no trace in the others |
| `Templates.SelfReference` | config.go:566-577 | `self` gives the text of all parameters, or fails the list if they cannot be encoded |
| `TemplateConfig.FromVal` | config.go:280-301 | Every configured value reads as a template, a list as one with as many children |
| `TemplateConfig.WrittenIsRead` | config.go:280-301 | A template written as a configuration value reads back the same: name, skip flag, fixed text, children |
| `TemplateConfig.TemplatesAreConfigured` | config.go:280-301 | The templates of the evaluator are exactly those a configuration can hold |
| `TemplateConfig.OtherForms` | config.go:280-301 | A missing or odd `skip` is no phantom, a missing or odd `param` names nothing, and booleans, numbers and nothing stand for their printed text |
| `Validation.AggregateArgs` | config.go:313-320 | Adds exactly the names a template refers to |
| `Validation.Validate` | config.go:323-350 | Accepts exactly the definitions whose references are declared, and otherwise names one that is not |
| `Validation.NamesDecideList` | config.go:550-600 | Parameters agreeing on the names referred to give the same argument list |
| `Validation.Distinguish` | config.go:550-600 | For every name referred to there are parameters differing only on it that give different lists |
| `Validation.ValidIffReadsOnlyDeclared` | config.go:313-350 | The check accepts exactly if the argument list depends on the declared parameters alone |
| `Merge.MergeMaps` | config/config.go:366-381 | The loop over both maps is the deep merge, in any order of keys |
| `Merge.MergeValues` | config/config.go:357-364 | Maps merge, lists concatenate, otherwise the later value wins |
| `Merge.MergeCases` | config/config.go:357-381 | A merged list is the earlier elements, then the later; a merged map has the keys of both; in every other case the later value remains |
| `Merge.Lookup` | config/config.go:199-205 | The loop over keys is the path lookup |
| `Merge.LookupGoesDown` | config/config.go:189-206 | A lookup goes into the entry of its first key, and finds nothing where there is no map or no such key |
| `Merge.GetAppend` | config/config.go:199-205 | Two lookups in a row are one along the joined path |
| `Merge.PutGet` | config/config.go:189-206 | What is nested under a path is found there |
| `Merge.MergedIsFound` | config/config.go:357-381 | A scalar merged in under a path is found there, whatever the configuration held |
| `Merge.OthersAreKept` | config/config.go:357-381 | Merging something in under a path changes no lookup along a path that parts from it inside a map |
| `Merge.LookupCommutesWithMerge` | config/config.go:189-206 | For every path: where both stay maps the lookups are merged, a name bound on one side keeps that side, after a mismatch the later value is seen |
| `Merge.EmptyIsIdentity` | config/config.go:366-381 | The empty map is neutral on both sides |
| `Merge.AbsorbedMeaning` | config/config.go:357-381 | When merging an earlier value changes nothing |
| `Merge.AssociativeIffCompatible` | config/config.go:357-381 | Merging is associative exactly if nothing of another shape stands between two maps or lists that would merge |
| `Merge.MapScalarMap` | config/config.go:357-381 | Map, scalar, map shows that the condition is needed |
| `Merge.MergeIsProper` | config/config.go:357-381 | Merging never makes an empty list a list |
| `Merge.ValueFromIsProper` | config/config.go:123-130 | An empty YAML list is not a list |
| `Merge.DecodesWhatIsWritten` | config/config.go:123-188 | A configuration value written as YAML is decoded to itself: keys, elements and scalars |
| `Includes.HeightIsBounded` | config/config.go:294-338 | Where no cycle can be reached no chain of includes is longer than the number of files |
| `Includes.KidsAreLower` | config/config.go:311-335 | Where no cycle can be reached an included file is lower than the file including it |
| `Includes.KidsAreListed` | config/config.go:311-336 | A file includes what the entries of its list under "include" stand for, in their order; it fails if one of them does, and includes nothing without such a list |
| `Loader.Stack.Pop` | config/stack.go:9-14 | The path on top comes off; what lay below stays |
| `Loader.Config.PushIncludes` | config/config.go:313-336 | The files of the include entries are pushed in order, up to one that fails |
| `Loader.TurnKeepsLoad` | config/config.go:294-338 | One turn of the loop leaves the result unchanged and shrinks the unfolded trees on the stack |
| `Loader.Config.Load` | config/config.go:289-340 | The stack-driven loop, run whenever that of the source ends: it merges what it visits in order up to a file that stops it, and where the given files reach no cycle it refines the recursive traversal, errors included |
| `Loader.LoadIsFold` | config/config.go:289-340 | Loading fails exactly if a visited file does, and otherwise is the left fold of the merge in preorder with siblings reversed |
| `Loader.SingleFile` | config/config.go:289-340 | A file without includes, loaded into an empty configuration, is the configuration |
| `Loader.LoadedKeys` | config/config.go:289-340 | After a successful load a key is there exactly if it was before or a visited file binds it; the only file binding it gives its value, and so does the last one if that is a scalar |
| `Loader.LastBinderDecides` | config/config.go:338 | The value of the last file binding a key is merged behind what the earlier ones gave |
| `Loader.VisitedAreReached` | config/config.go:294-338 | The files visited are exactly those a chain of includes leads to |
| `Loader.EndlessNeverEnds` | config/config.go:294-338 | With a group of files that include each other on the stack the loop runs for any number of turns, unless a file fails |
| `Loader.CycleIsEndless` | config/config.go:294-338 | The files of a chain that comes back to one of them are such a group |
| `Loader.EmptiesOnlyAcyclic` | config/config.go:294-338 | The stack is emptied only if no cycle can be reached from it |
| `Loader.EndsIff` | config/config.go:294-338 | The loop ends exactly if no cycle can be reached from its files, or a file that cannot be loaded stops it before a cycle is visited |
| `Numerals.ParseUint` | config.go:367 | Reading stops at a foreign digit or above the maximum |
| `Numerals.FormatMeaning` | config.go:367 | Printing a number and reading it in the same base gives it back |
| `FileMode.Bind.FixMode` | config.go:361-373 | Converts in place exactly the accepted modes, leaves others alone |
| `FileMode.ConvertedPrintsTheSame` | config.go:361-373 | The result printed in octal shows the decimal digits of the input |
| `FileMode.AcceptedIffOctal` | config.go:361-373 | A number is accepted exactly if it is written like a mode up to 0777 |
| `FileMode.AcceptedModes` | config.go:361-373 | In plain arithmetic: accepted are the numbers whose decimal digits are below 8 and read with weights of 8 as at most 511, and that is the result |
| `FileMode.ConversionIsIncreasing` | config.go:361-373 | The conversion is strictly increasing |

## Left out

- `Engine.EveryRunEnds`: steps are whole responder calls; data races inside a responder method are not modelled.
- `Answers.RpcRefinesAnswer`: speaks of copies without empty writes, which is how the copy loop writes.
- `Overtaken.EveryRpcAnswer`: which of the answer of the method and the timeout error a timed-out call sends is not fixed, because a copy ending in the grace period overwrites the stored error.
- `CutStreams.EveryStreamAnswer`: supposes that no part of the output takes more than 2^63-1 bytes on the wire, the limit that main lifts to.
- `Agreement.UpgradeCarriesTheSameBytes`: supposes that neither stream is cut by its limit.
- `Validation.ValidIffReadsOnlyDeclared`: supposes that no template uses `self`, which passes all parameters, and that none names the empty parameter, which list nodes look up too.
- `Templates.ArgMeaning`: supposes parameter maps without the empty name, for the same reason.
- `Merge.MergeMaps`: values are immutable, so the shared backing array a Go `append` may write to is not captured.
- `Writers.Encoder.Encode`: above the limiter the transport is taken to accept every byte; an error of the sink is passed on by the limiter only.
- The request shared by goroutines is modelled on values as a state machine (`Engine`); `Requests` is its sequential form as objects.
- Values that JSON cannot encode, the real JSON and YAML text and UTF-8 replacement: encodings are abstract.
- Reading a request: the error it ends with, and the fields decoded before it, are parameters.
- The forced flush after ten seconds: it writes no bytes.
- Method implementations that call the responder more than once: only the adapter's single call is modelled.
- `CheckParams`: it returns after filling the first missing optional parameter, so the evaluator is studied on arbitrary parameters instead.
- The choice of one key in an include entry with several: map iteration order is arbitrary, so the entry lookup is a parameter.
- Process spawning, pipes, base64 output, HTTP, TLS, sockets, locks, users, signals and logging: input and output around the modelled core.

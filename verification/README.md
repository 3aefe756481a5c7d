# OpenImageDebugger: a verified model

OpenImageDebugger shows the image buffers of a program stopped in gdb or lldb.
A debugger-side Python package describes buffers and ships them to a viewer
window; the viewer answers agent requests over a local socket while it keeps
rendering. This project models the parts of it whose correctness is not visible
from any one function, and proves what they promise.

`dafny verify dfyconfig.toml` checks everything. One module per component:

| module | what it models |
|---|---|
| `FramePacing` | the render loop's frame pacer, its wakes and its deadline |
| `RequestPipeline`, `AgentReplies` | accept, serve and render threads and `stop()` as one transition system; every lock-protected block is one step; and what each connection is told |
| `AgentServing` | the server object itself, each method taking the pipeline by exactly its step |
| `ConnectionStop` | the race between `stop()` and a connection's restart/run/cancel sequence |
| `DeclarativeTypes` | the declarative type language: the loader's validation and the interpreter |
| `DeclarativeForms`, `DeclarativeValues`, `DeclarativeTemplates` | which nodes are accepted, and what nodes and templates mean |
| `DeclarativeMetadata` | the inspector that runs an entry against any debugger, and what its metadata says of the entry |
| `DeclarativeEscapes` | exactly when resolving an accepted entry raises something else than it promises |
| `BufferGeometry` | payload sizes: guarded products, divisions, and what they say about the elements drawn |
| `BufferAssembly` | reassembly of a buffer from row strips |
| `MessageExchange` | the bridge's message stream |
| `WireFrame` | the agent protocol's frames, in C++ and in Python |
| `NpyText`, `NpyFormat`, `NpyCodec`, `NumpyFiles`, `NpyRefusals` | the `.npy` writer and reader (NEP 1, "Format Specification: Version 1.0"), the files NumPy writes, and what is refused |
| `SumTable` | the test bench's ping-pong summed-area table |
| `TemplateArgs`, `TargPlaceholders` | template arguments read out of printed C++ type names, and `{targ:...}` placeholders resolved through them |
| `MemberWalk` | listing observable symbols over a possibly cyclic member graph |
| `BufferCaching`, `FetchRuns` | the fetch cache, and runs of fetches among stops and restarts |
| `ViewerRetry` | reaching a viewer through stale discovery files |
| `Arithmetic`, `Bytes`, `ByteStreams`, `Wrappers` | shared arithmetic, bytes, the byte transport, options |

Code that updates objects step by step is modelled by classes and loops proved
against a specification function; the theorems are about that function. Threads
are interleaved actions, and a theorem about a reachable state is about every
interleaving. Transports deliver any non-empty part of what is asked for.

## What does not hold

Each of these has a concrete witness and the condition under which the property
holds after all, with a proof that the condition is exact.

- A wake is not always served by the next `pace()`: after an overrun the loop guard
  is already false and the wake waits another frame
  (`FramePacing.OverrunPostponesAWake`). A wake pending on entry is served by that
  `pace()` if and only if its first clock reading is before the deadline
  (`FramePacing.WakeServedExactly`); it is never lost.
- A second `stop()` returns at once while the first is still at work, with serve
  threads alive (`RequestPipeline.SecondStopReturnsEarly`). It finds everything down
  if and only if nothing is being accepted and no serve thread is alive
  (`RequestPipeline.SecondStopFindsAllDownExactly`).
- `drain_until_done` can return with `done` false
  (`ConnectionStop.DrainCanLeaveUndone`): its `run()` can return with no handler run
  if and only if the context was stopped after the loop's last `restart()`, before
  `run()` or inside it (`ConnectionStop.DrainLeavesUndoneExactlyWhenRaced`).
- An accepted entry can raise something other than `EntryEvaluationError`: an
  infinite literal for `transpose` reaches `int()`, which overflows; a debugger
  value's own `int()` or `str()` may raise anything, and outside a `first_valid` list
  a map lets even a `ValueError` out; and a number may have too many digits to print
  (`DeclarativeEscapes.InfiniteTransposeEscapes`, `DeclarativeEscapes.LeakWitness`,
  `DeclarativeEscapes.UnprintedKeyWitness`). It does so if and only if it gets as far
  as a field whose path comes to one of these
  (`DeclarativeEscapes.ResolutionEscapesExactly`).
- A pixel layout ending in a newline passes the pattern, since `$` matches before
  a final newline, and a buffer is shown with it
  (`DeclarativeEscapes.NewlineWitness`,
  `DeclarativeEscapes.LayoutIsFourLettersExactlyWhenNoNewline`).
- A list longer than 2^31 - 1 does not round-trip: its count is cast to `int`
  (`MessageExchange.TextsRoundTrip`, `MessageExchange.HugeCountReadsAsEmpty`).
- A frame with no payload whose object has a `payload` field of its own takes bytes
  of the next frame (`WireFrame.OwnFieldLosesFraming`), unless that field is zero
  (`WireFrame.FrameRoundTrip`).
- The two languages do not treat every input alike: a boolean `payload` is a size to
  Python and an error to C++ (`WireFrame.ReadersDisagreeOnBooleans`). They do if and
  only if the field, where there is one, is an integer in the signed 64-bit range or
  no size to Python's `int()` either (`WireFrame.ReadersAgreeExactly`).
- Commas outside angle brackets split a template argument
  (`TemplateArgs.ParametersAreSplit`). The arguments come back if and only if none
  prints such a comma and the last is not blank
  (`TemplateArgs.SplitRecoversArguments`).
- A cached buffer can be stale until the stop is notified
  (`FetchRuns.StaleUntilNotified`). Whatever the debuggee has done, the cache is sure
  to answer with what it shows now if and only if it has shown nothing else under
  that name since the last notified stop (`FetchRuns.CurrentExactlyWhenUnchanged`).
- Were fetches to overlap, one could be answered from a later generation than it
  pinged (`FetchRuns.OverlappingFetchReadsAhead`). Any interleaving is sure to answer
  with what the generation pinged showed if and only if nothing else has been shown
  under that name since (`FetchRuns.OverlapExactlyWhenRepeated`); the stop generation
  an answer carries proves it exact when it is the one pinged
  (`FetchRuns.SameNumberIsExact`) and decides nothing when it is later
  (`FetchRuns.LaterNumberYetExact`). One fetch at a time is always exact
  (`FetchRuns.CachedAnswerIsExact`), and the server's tools are plain synchronous
  functions without threads of their own
  (resources/oidmcp/oidmcp/server.py:325-462), so nothing in the repository is shown
  to overlap them.

## Model

| member | source | states |
|---|---|---|
| FramePacing.DeadlinesAreExact | src/host/frame_pacer.cpp:41-69 | over any run, no frame ends before its deadline, and the next deadline is one period later unless the frame ended later still; then it is one period after that end, and the frame after it ends no sooner |
| FramePacing.NoDrift | src/host/frame_pacer.cpp:64-68 | while no frame overruns by more than a period the deadlines stay on one grid, whatever the clock read as each frame ended |
| FramePacing.NoCatchUpBurst | src/host/frame_pacer.cpp:41-69 | over any run of wakes and pace() passes, each deadline lies within one period ahead of the clock, and the k-th frame after another ends no earlier than k - 1 periods behind its deadline |
| FramePacing.SleepsOnlyWhenServed | src/host/frame_pacer.cpp:41-62 | at any point of any run, the pacer sleeps only when every wake made so far is consumed and the deadline is still ahead, and serves exactly when one is not and the guard's reading is before the deadline, all of them at once |
| FramePacing.SurplusWakesStayPending | src/host/frame_pacer.cpp:33-60 | over any run every wake is counted, on_wake runs at most once per wake consumed, and without an on_wake nothing is consumed |
| FramePacing.OverrunPostponesAWake | src/host/frame_pacer.cpp:44-69 | a concrete overrun in which a pending wake is not served by that pass |
| FramePacing.WakeServedExactly | src/host/frame_pacer.cpp:41-62 | over a whole pace(), a wake pending on entry is answered if and only if the first clock reading is before the deadline |
| FramePacing.FramePacer.Pace | src/host/frame_pacer.cpp:41-69 | the loop takes exactly the turns up to the first that finds the deadline passed, and its state, its frame end and its on_wake calls are those of that run of events |
| FramePacing.FramePacer.RunLoop | src/main.cpp:1144-1163 | frames drawn and paced in turn are one run of pacer events, so on a clock that never goes back the frame ends of the object keep their distance, bursts of wakes or not |
| FramePacing.FramePacer.LockedStretch | src/host/frame_pacer.cpp:42-68 | the part under the mutex gives the specified verdict and new state |
| RequestPipeline.NoLostWakeup | src/host/agent/agent_server.cpp:459-516 | while pace() sleeps un-notified every queued request's wake() is still to run or running, and every consumed wake is followed by an on_wake that began after it |
| RequestPipeline.SettledExactlyOnce | src/host/agent/agent_server.cpp:459-545 | every request ever enqueued is in exactly one of queue, batch and settled, and has an outcome exactly when settled |
| RequestPipeline.OutcomesAreFinal | src/host/agent/agent_server.cpp:499-545 | over every run an outcome, once recorded, is never replaced |
| RequestPipeline.AuthedPointersAlive | src/host/agent/agent_server.cpp:436-516 | a queued or batched request's authed pointer belongs to a serve thread still blocked on that very request |
| RequestPipeline.QueueBounded | src/host/agent/agent_server.cpp:382-457 | queued plus in-batch requests never exceed MAX_CLIENTS |
| RequestPipeline.NoStuckFuture | src/host/agent/agent_server.cpp:436-545 | a serve thread waiting on a future finds it settled, or its request still queued on a running server, or in a batch being drained |
| RequestPipeline.SettledByTheNextFrame | src/main.cpp:1098-1163 | bounded response: over any interleaving, running server or not, a request is settled before pace() is entered again, or entered a second time if the current frame's drain had begun when it was queued |
| RequestPipeline.HandlersOnlyAfterHello | src/host/agent/agent_core.cpp:376-435 | every handler but hello ran after its own connection presented the right token |
| RequestPipeline.AuthNeverRevoked | src/host/agent/agent_core.cpp:376-435 | once authenticated a connection stays so over every run |
| RequestPipeline.StopReturnsClean | src/host/agent/agent_server.cpp:523-597 | when the stop() that did the work returns, nothing is queued or unsettled, no serve thread is alive and nothing is being accepted |
| RequestPipeline.SecondStopReturnsEarly | src/host/agent/agent_server.cpp:523-545 | a reachable state in which a second stop() has nothing to wait for while a serve thread still reads |
| RequestPipeline.SecondStopFindsAllDownExactly | src/host/agent/agent_server.cpp:523-597 | in every reachable state after a stop() began, all is down -- nothing queued, held, unsettled, served or accepted -- if and only if nothing is being accepted and no serve thread is alive |
| RequestPipeline.TeardownDescends | src/host/agent/agent_server.cpp:557-597 | from the stopping of the accept thread's context on, every step that advances the teardown decreases a bound, the last connection accepted and the accept thread's end included, and no other step raises it |
| RequestPipeline.TeardownNeverStalls | src/host/agent/agent_server.cpp:557-597 | from there on some advancing step that waits for no peer is always possible until stop() returns |
| RequestPipeline.StopWaitsBoundedly | src/host/agent/agent_server.cpp:557-597 | a run from there on contains at most as many advancing steps, joins of the accept thread included, as the bound at its start |
| RequestPipeline.InterleavedDrainAnswersEach | src/host/agent/agent_server.cpp:499-516 | over any interleaving, a request a drain() has taken waits in its batch or gets the result of its own handler, an exception exactly when that handler threw, and is settled once the drain is over |
| RequestPipeline.InterleavedDrainKeepsOrder | src/host/agent/agent_server.cpp:499-516 | over any interleaving, a batch is settled from the front in the order it was queued |
| AgentReplies.RepliesAreDue | src/host/agent/agent_core.cpp:370-444 | over every interleaving, an answered request gets exactly the reply due to it from what its own connection sent up to it: a welcome for a good hello, the handler's answer for a known method after one, and otherwise the refusal of its case |
| AgentReplies.DialogueIsSequential | src/host/agent/agent_server.cpp:409-457 | what has been written to a connection is one reply a request, in order and each due to its request, with at most the last request unanswered |
| AgentReplies.AuthedExactlyAfterHello | src/host/agent/agent_core.cpp:410-435 | a connection being read from is authenticated if and only if it has sent a good hello |
| AgentReplies.GrantsSetTheFlag | src/host/agent/agent_core.cpp:376-435 | a connection's flag is set if and only if a hello handler granted it, and each welcome or answer recorded is of a handler that ran |
| AgentReplies.OutcomeIsAsDecided | src/host/agent/agent_server.cpp:459-545 | over any interleaving one step decides what a request comes to: turned away when it arrives after stop() began, broken when queued as stop() begins, otherwise its handler's answer or exception |
| AgentReplies.AdmittedBelowTheCap | src/host/agent/agent_server.cpp:382-407 | a newcomer is served, unauthenticated, if and only if fewer than MAX_CLIENTS connections have threads that have not ended |
| AgentReplies.HungUpExactly | src/host/agent/agent_server.cpp:409-457 | over any run a serve thread leaves its loop if and only if a read or a write failed or its request was not answered |
| AgentServing.AgentServer.ReapFinished | src/host/agent/agent_server.cpp:325-336 | erasing in place leaves exactly the unfinished connections in order |
| AgentServing.AgentServer.HandleAccept | src/host/agent/agent_server.cpp:382-407 | reaps, then serves the newcomer exactly when fewer than MAX_CLIENTS remain; the pipeline's accept step |
| AgentServing.AgentServer.Enqueue | src/host/agent/agent_server.cpp:459-481 | queues the request, or fails its promise when already stopped; the pipeline's receive step |
| AgentServing.AgentServer.DispatchOne | src/host/agent/agent_server.cpp:503-515 | one request handled through its authed flag and its promise settled; the pipeline's handle and settle steps |
| AgentServing.AgentServer.Drain | src/host/agent/agent_server.cpp:499-516 | swapping the queue out and looping over it is the pipeline's whole drain |
| AgentServing.AgentServer.BreakPending | src/host/agent/agent_server.cpp:523-545 | the first stop() breaks every queued promise, a later one changes nothing |
| AgentServing.AgentServer.ReapRound | src/host/agent/agent_server.cpp:579-597 | one round of the final loop, finished exactly when no connection is left |
| ConnectionStop.NeverWaitsAfterStop | src/host/agent/agent_server.cpp:141-185 | once stop() has set the flag and stopped the context, no serve thread waits in run() with an open socket on an un-stopped context |
| ConnectionStop.HandlersFindTheirFrame | src/host/agent/agent_server.cpp:118-185 | every completion handler that runs finds the frame it captured still live |
| ConnectionStop.NothingRunsAfterTheReturn | src/host/agent/agent_server.cpp:141-185 | over any run, after each return of run_async_op, to the serve loop or by throwing, only handlers of later operations run, and none after it threw |
| ConnectionStop.ReturnsExactlyWhenClean | src/host/agent/agent_server.cpp:141-185 | over any run, an operation comes back to the serve loop if and only if the stop flag was clear when loaded and its own handler ran without error in the main run(); every other one that is over threw |
| ConnectionStop.StoppedThreadCanMove | src/host/agent/agent_server.cpp:141-185 | with the stop made, a thread that has not ended can always take a step of its own, timeouts and peers aside |
| ConnectionStop.StoppedStepDescends | src/host/agent/agent_server.cpp:141-185 | with the stop made, every step brings the thread closer to its end by a lexicographic measure |
| ConnectionStop.StoppedThreadEnds | src/host/agent/agent_server.cpp:141-185 | once it has looked at the flag for the last time, a stopped thread takes at most a bounded number of steps, and after that many it has ended |
| ConnectionStop.LastLookComesSoon | src/host/agent/agent_server.cpp:141-185 | and that last look comes within a bounded number of steps of the stop |
| ConnectionStop.DrainLeavesUndoneExactlyWhenRaced | src/host/agent/agent_server.cpp:118-129 | drain_until_done ends undone if and only if the context was stopped under its run() |
| ConnectionStop.DrainCanLeaveUndone | src/host/agent/agent_server.cpp:118-129 | an interleaving in which it does |
| DeclarativeTypes.ValidTextIsExact | resources/oidscripts/oidtypes/declarative.py:105-128 | where template arguments resolve, a text passes validation if and only if substituting it succeeds, and fails it exactly by meeting an unknown placeholder, for every filling of the available ones |
| DeclarativeTypes.NodeSound | resources/oidscripts/oidtypes/declarative.py:355-405 | a value node that passes validation resolves, under any debugger, to a value of its field's kind or raises EntryEvaluationError, whatever nesting of first_valid, map, if and min it has; the exceptions are the two stated above |
| DeclarativeTypes.LeafSound | resources/oidscripts/oidtypes/declarative.py:408-496 | the same of the integer, dtype, boolean and pointer leaves |
| DeclarativeTypes.CandidatesSound | resources/oidscripts/oidtypes/declarative.py:368-389 | the same of a candidate list |
| DeclarativeTypes.FirstValidIsLeast | resources/oidscripts/oidtypes/declarative.py:368-389 | first_valid is what the least-index candidate that does not fail comes to, and the candidates after it do not matter |
| DeclarativeTypes.FirstValidFails | resources/oidscripts/oidtypes/declarative.py:368-389 | if every candidate fails, so does first_valid, as an EntryEvaluationError |
| DeclarativeTypes.LayoutSound | resources/oidscripts/oidtypes/declarative.py:659-669 | a validated pixel layout resolves to a layout its pattern accepts or raises EntryEvaluationError |
| DeclarativeTypes.StageTableIsExact | resources/oidscripts/oidtypes/declarative.py:89-101 | resolving a field turns exactly the placeholders validation allows there into those it allows at the next field |
| DeclarativeTypes.FieldSound | resources/oidscripts/oidtypes/declarative.py:685-696 | a validated field, resolved with the placeholders of its stage, fits its place in the metadata or is accounted for |
| DeclarativeTypes.StageSound | resources/oidscripts/oidtypes/declarative.py:817-879 | after any number of fields of an accepted entry, either all resolved values fit or the resolution has raised an accounted error |
| DeclarativeMetadata.NextSound | resources/oidscripts/oidtypes/declarative.py:817-879 | the next field extends the resolved values, or decides the whole resolution |
| DeclarativeMetadata.PickLayout | resources/oidscripts/oidtypes/declarative.py:764-772 | the loop returns the layout its conditions select |
| DeclarativeMetadata.DeclarativeInspector.GetBufferMetadata | resources/oidscripts/oidtypes/declarative.py:817-879 | for an accepted entry and any debugger: metadata each item of which is what the entry's field of that name, or its default, comes to with the placeholders spelling out the items resolved before it, all of them in range; or the specified error |
| DeclarativeMetadata.DescribedOnce | resources/oidscripts/oidtypes/declarative.py:817-879 | that leaves one choice for every item: an entry and a debugger determine the metadata |
| DeclarativeMetadata.DefaultItems | resources/oidscripts/oidtypes/declarative.py:70-76 | an entry that does not say so has one channel, no transpose, the layout rgba and rows as long as the image is wide, where a printed number reads back as itself |
| DeclarativeMetadata.DefaultDisplayIsTheFallback | resources/oidscripts/oidtypes/declarative.py:781-795 | the default display template shows what the fallback shows, the name and the type in parentheses |
| DeclarativeTemplates.PlaceholdersExactly | resources/oidscripts/oidtypes/declarative.py:102-111 | the scanner takes as placeholders exactly a lower-case word in braces, or targ: and a path of numbers |
| DeclarativeTemplates.OtherBracesStay | resources/oidscripts/oidtypes/declarative.py:114-128 | text without a placeholder is left as it is, other braces included |
| DeclarativeTemplates.PlaceholderIsReplaced | resources/oidscripts/oidtypes/declarative.py:105-128 | a named placeholder is replaced by its value, whatever text surrounds it; one not filled in fails the template |
| DeclarativeTypes.TruthExactly | resources/oidscripts/oidtypes/declarative.py:254-268 | a debugger value is true or false exactly as its number is nonzero or zero or, having none, as its text spells the word |
| DeclarativeForms.AcceptedIsForm | resources/oidscripts/oidtypes/declarative.py:512-657 | every accepted object is a candidate list, a choice or a lookup, with no other key |
| DeclarativeForms.ListAcceptedExactly | resources/oidscripts/oidtypes/declarative.py:590-609 | a candidate list is accepted if and only if it has candidates and all of them are |
| DeclarativeForms.IfAcceptedExactly | resources/oidscripts/oidtypes/declarative.py:525-541 | a choice, if and only if its condition is a known template and both branches are accepted |
| DeclarativeForms.MapAcceptedExactly | resources/oidscripts/oidtypes/declarative.py:612-627 | a lookup, if and only if its expression is a known template and its cases, of which there is one, and its default are accepted |
| DeclarativeForms.CandidateAcceptedExactly | resources/oidscripts/oidtypes/declarative.py:544-576 | a minimum is a candidate only of a field that takes numbers; every other candidate is judged as the node it is |
| DeclarativeForms.FieldsAcceptedExactly | resources/oidscripts/oidtypes/declarative.py:685-696 | each field by name: sizes and the dtype may be bare integers, the transpose any bare number or truth value, the pointer neither |
| DeclarativeForms.LayoutTextExactly | resources/oidscripts/oidtypes/declarative.py:107-107 | the layout pattern takes four of the letters rgba, and perhaps a final newline |
| DeclarativeForms.DisplayNameIsExact | resources/oidscripts/oidtypes/declarative.py:699-712 | where template arguments resolve, a display template is accepted if and only if it substitutes, whatever the name and the type |
| DeclarativeValues.ScalarExactly | resources/oidscripts/oidtypes/declarative.py:408-496 | what a scalar gives as a size, a dtype, a flag or a pointer, both ways |
| DeclarativeValues.NodeComesToExactly | resources/oidscripts/oidtypes/declarative.py:355-405 | any node comes to a value if and only if some way through its candidates, branches and cases, each turn taken for its own reason, ends at a scalar that gives it |
| DeclarativeValues.LayoutComesToExactly | resources/oidscripts/oidtypes/declarative.py:764-772 | a layout node comes to a text if and only if its conditions lead to it |
| DeclarativeEscapes.TemplateFailsExactly | resources/oidscripts/oidtypes/declarative.py:295-308 | a template fails with EntryEvaluationError and nothing else, and uncleanly exactly for an unknown placeholder or a node that is no template |
| DeclarativeEscapes.ConversionFailsExactly | resources/oidscripts/oidtypes/declarative.py:244-268 | a conversion to a number or a truth value raises a bare ValueError or the value's own error, each exactly for its own reason |
| DeclarativeEscapes.LeafEscapesExactly | resources/oidscripts/oidtypes/declarative.py:408-496 | an accepted leaf raises past EntryEvaluationError if and only if it is an infinite flag literal, its text comes to a debugger value that is converted and raises its own error, or it comes to a number out of range that the message cannot print |
| DeclarativeEscapes.ConditionEscapesExactly | resources/oidscripts/oidtypes/declarative.py:338-352 | the same of conditions, where a value whose int() refuses is printed |
| DeclarativeEscapes.MapKeyEscapesExactly | resources/oidscripts/oidtypes/declarative.py:392-397 | looking a value up raises if and only if the number or the debugger value has to be printed and cannot, or its int() raises something of its own |
| DeclarativeEscapes.NodeEscapesExactly | resources/oidscripts/oidtypes/declarative.py:355-405 | the same of every accepted node: if and only if the path taken through first_valid, min, map and if comes to one of these |
| DeclarativeEscapes.FirstValidEscapesExactly | resources/oidscripts/oidtypes/declarative.py:368-389 | a candidate list lets anything but a ValueError out if and only if the first candidate not swallowed does |
| DeclarativeEscapes.CandidatesSwallow | resources/oidscripts/oidtypes/declarative.py:368-389 | and never a ValueError |
| DeclarativeEscapes.LayoutLeaksExactly | resources/oidscripts/oidtypes/declarative.py:764-772 | the same of nested layouts, where only a condition can leak |
| DeclarativeEscapes.ResolutionEscapesExactly | resources/oidscripts/oidtypes/declarative.py:817-879 | resolving an accepted entry raises past EntryEvaluationError if and only if it gets as far as a field that lets it out, in being resolved or in being printed for later fields, and nothing else ever gets past |
| DeclarativeEscapes.TransposeEscapesExactly | resources/oidscripts/oidtypes/declarative.py:817-879 | under a debugger whose values convert or refuse to and print, if and only if the dtype resolves and the transpose's path comes to an infinity |
| DeclarativeEscapes.PlainTransposeEscapesExactly | resources/oidscripts/oidtypes/declarative.py:432-439 | for a transpose that is not an object, if and only if the dtype resolves and it is the infinite literal |
| DeclarativeEscapes.LeakingDtypeEscapes | resources/oidscripts/oidtypes/declarative.py:442-463 | any accepted entry stays accepted with a dtype whose text comes to a leaking value, and then raises what that value raises |
| DeclarativeEscapes.LeakWitness | resources/oidscripts/oidtypes/declarative.py:817-879 | an accepted entry and a debugger for which resolution ends so |
| DeclarativeEscapes.UnprintedKeyEscapes | resources/oidscripts/oidtypes/declarative.py:392-397 | any accepted entry stays accepted with a dtype looked up by a value that cannot be printed, and then raises what printing it raises |
| DeclarativeEscapes.UnprintedKeyWitness | resources/oidscripts/oidtypes/declarative.py:392-397 | an accepted entry and a debugger for which that is a ValueError |
| DeclarativeEscapes.InfiniteTransposeEscapes | resources/oidscripts/oidtypes/declarative.py:432-439 | any accepted entry stays accepted with an infinite transpose, and its resolution escapes as soon as it gets that far |
| DeclarativeEscapes.LayoutIsFourLettersExactlyWhenNoNewline | resources/oidscripts/oidtypes/declarative.py:764-772 | an accepted layout is four letters of rgba if and only if it does not end in a newline |
| DeclarativeEscapes.NewlineLayoutIsShown | resources/oidscripts/oidtypes/declarative.py:764-772 | any accepted entry stays accepted with a layout of five characters, and that is the layout its buffer comes to once the fields before it resolve |
| DeclarativeEscapes.NewlineWitness | resources/oidscripts/oidtypes/declarative.py:764-772 | an accepted entry and a debugger for which it does |
| BufferGeometry.GeometryFitsExactly | src/ipc/raw_data_decode.cpp:49-72 | the division test holds if and only if every addressed element lies inside the payload |
| BufferGeometry.BufferSpanFitsExactly | src/visualization/buffer_span_fits.h:76-99 | the same of the renderer's test |
| BufferGeometry.NoIntermediateOverflows | src/visualization/buffer_span_fits.h:86-98 | with int arguments no intermediate of either test leaves 64 bits |
| BufferGeometry.GuardedProduct | src/host/agent/agent_core.cpp:508-521 | the guarded fold is the true product, present exactly when it is within the limit |
| BufferGeometry.ComputePaddedPayloadSize | src/ipc/raw_data_decode.cpp:74-99 | the padded size, present exactly when the geometry is measurable and the true size fits 64 bits |
| BufferGeometry.PaddedExactly | src/ipc/raw_data_decode.cpp:74-99 | there is a padded size if and only if the type is known, the geometry makes sense and the true product of stride, height, channels and element size fits 64 bits, and it is that product |
| BufferGeometry.DeclaredTooLarge | src/host/agent/agent_core.cpp:508-521 | get_buffer refuses exactly the shapes whose true size exceeds the cap |
| BufferGeometry.PaddedAlwaysFits | src/ipc/raw_data_decode.cpp:49-99 | a payload of the padded size always passes the geometry test |
| BufferGeometry.WireAndRendererAgree | src/visualization/buffer_span_fits.h:44-99 | a payload passes the wire's test if and only if, with doubles narrowed, it passes the renderer's |
| BufferGeometry.WireSizeWouldRefuseDoubles | src/visualization/buffer_span_fits.h:40-57 | sizing a stored double at type_size() would refuse a valid buffer |
| BufferAssembly.EndReturnsTheLastWrites | src/ipc/buffer_assembler.cpp:36-139 | after any run of calls over any names, end returns a buffer if and only if a transfer is open and every row was written since it was begun; the buffer carries the begin's description item by item, has exactly the declared size, and in each row the payload of the last accepted chunk covering it |
| BufferAssembly.RepliesExactly | src/ipc/buffer_assembler.cpp:36-144 | after any run, chunk says yes if and only if a transfer is open that has the strip's rows and the strip exactly their bytes, begin if and only if the declaration is acceptable, abort if and only if a transfer was open |
| BufferAssembly.AcceptableExactly | src/ipc/buffer_assembler.cpp:36-79 | a declaration is acceptable if and only if its type is known, its geometry displayable, its stride no less than its width, and its size that of all its rows within 16 GiB |
| BufferAssembly.EveryRunExplained | src/ipc/buffer_assembler.cpp:36-147 | what is held under a name is determined by the positions of the last begin and the last writes in the run |
| BufferAssembly.StripsInAnyOrder | src/ipc/buffer_assembler.cpp:84-114 | disjoint strips leave the same transfer in every order of arrival |
| BufferAssembly.ChunksAreWrites | src/ipc/buffer_assembler.cpp:84-114 | chunk calls on an open transfer are those writes |
| BufferAssembly.BufferAssembler.BeginTransfer | src/ipc/buffer_assembler.cpp:36-82 | the four refusals, each dropping the transfer in flight, else a fresh one; the model's begin |
| BufferAssembly.BufferAssembler.ReceiveChunk | src/ipc/buffer_assembler.cpp:84-114 | bounds and size tests, then the copy; the model's row writes |
| BufferAssembly.CopyStrip | src/ipc/buffer_assembler.cpp:93-113 | copying into the flat bytes at the row offset writes exactly the strip's rows |
| BufferAssembly.BufferAssembler.EndTransfer | src/ipc/buffer_assembler.cpp:116-139 | the flat bytes are handed over when every row arrived; the model's end |
| BufferAssembly.BufferAssembler.AbortTransfer | src/ipc/buffer_assembler.cpp:141-143 | drops the transfer and says whether there was one |
| MessageExchange.FieldRoundTrip | src/ipc/message_exchange.h:181-330 | a field the sender can write is read back with the next one aligned, if and only if it is within the reader's limits |
| MessageExchange.TextsRoundTrip | src/ipc/message_exchange.h:225-330 | the same of string lists, the count cast to int included |
| MessageExchange.ProperPrefixTimesOut | src/ipc/message_exchange.h:241-344 | every proper prefix of a field times out with nothing left unread |
| MessageExchange.RefusalConsumesOnlyTheLength | src/ipc/message_exchange.h:250-308 | an over-limit length is refused with all of its bytes still unread |
| MessageExchange.AcceptedIsTheEncoding | src/ipc/message_exchange.h:241-330 | whatever is accepted is the encoding of what is returned, except exactly a list whose count does not fit an int |
| MessageExchange.HugeCountReadsAsEmpty | src/ipc/message_exchange.h:311-329 | a count of 2^32 reads as an empty list |
| MessageExchange.StreamRoundTrip | src/ipc/message_exchange.h:181-344 | any sequence of fields is read back in order, consuming exactly its bytes |
| MessageExchange.StreamPrefixTimesOut | src/ipc/message_exchange.h:181-344 | and no proper prefix of it is enough |
| MessageExchange.MessageComposer.Push | src/ipc/message_exchange.h:183-232 | appends exactly the field's encoding |
| MessageExchange.MessageComposer.Send | src/ipc/message_exchange.h:198-212 | sends the blocks as one frame |
| MessageExchange.MessageDecoder.ReadImpl | src/ipc/message_exchange.h:334-343 | fills the destination from however many partial receives it takes, or times out |
| MessageExchange.MessageDecoder.ReadEach | src/ipc/message_exchange.h:311-330 | the list loop reads what the specification reads |
| MessageExchange.MessageDecoder.Read | src/ipc/message_exchange.h:241-330 | each overload reads what the specification reads |
| MessageExchange.ComposeEach | src/ipc/message_exchange.h:181-217 | messages sent through one composer, cleared in between, go out as exactly their encodings in order |
| MessageExchange.Exchange | src/ipc/message_exchange.h:181-344 | composed, sent and decoded over any fragmentation, a conversation comes out unchanged, message by message, and the transport stands at whatever follows |
| WireFrame.WriteReply | src/host/agent/agent_server.cpp:229-255 | header and payload sent one after the other are on the wire the one combined frame, and an oversized object goes out as the error frame instead |
| WireFrame.ReplyIsOneFrame | src/host/agent/agent_server.cpp:222-255 | whatever the handler replied, the client reads exactly one frame, the reply or the error, with the next frame aligned |
| WireFrame.FrameRoundTrip | src/host/agent/wire_frame.cpp:44-156 | a frame decodes to its object and payload with the next frame aligned, if and only if an empty payload goes with an object announcing none |
| WireFrame.OwnFieldLosesFraming | src/host/agent/wire_frame.cpp:126-156 | an object that announces a byte of its own and goes without payload takes that byte from the next frame |
| WireFrame.OverLimitConsumesNoPayload | src/host/agent/wire_frame.cpp:120-156 | a payload over the limit is refused before any of it is read |
| WireFrame.OversizeRefusedAtBothEnds | src/host/agent/wire_frame.cpp:44-112 | the sender refuses an object exactly when the receiver would refuse its frame |
| WireFrame.ProperPrefixIsClosed | src/host/agent/wire_frame.cpp:102-156 | a frame cut short anywhere reads as a closed connection |
| WireFrame.StreamRoundTrip | resources/oidscripts/wireframe.py:27-94 | any sequence of deliverable frames is received in order, each with its announced length |
| WireFrame.BothLanguagesReadAFrame | resources/oidscripts/wireframe.py:67-94 | a frame from either language, announcing nothing it does not carry, is received alike by both |
| WireFrame.ReadersAgreeExactly | resources/oidscripts/wireframe.py:67-94 | over libraries that parse a text alike, both languages come to the same reply with the same bytes left on every input, if and only if the payload field reached, if any, is an integer in the signed range or no size to int() either |
| WireFrame.RefusalsExactly | src/host/agent/wire_frame.cpp:102-156 | once its text has arrived whole, a frame is refused for exactly one of six reasons, each with its own condition, with the bytes after the text unread unless they ran out, or is the object with exactly the bytes it announces |
| WireFrame.CppSizeExactly | src/host/agent/wire_frame.cpp:126-140 | get<int64_t>() gives a size exactly for integers of the two 64-bit ranges, modulo 2^64 |
| WireFrame.ReadersDisagreeOnBooleans | resources/oidscripts/wireframe.py:84-93 | a boolean payload field is a size of one or none in one language and an error in the other |
| WireFrame.FillPrefixedJson | src/host/agent/wire_frame.cpp:66-76 | the indexed loop writes the big-endian length and the text |
| WireFrame.EncodeFrameHeader | src/host/agent/wire_frame.cpp:80-86 | the header alone, or a refusal over the cap |
| WireFrame.EncodeFrame | src/host/agent/wire_frame.cpp:88-98 | header and payload in one buffer |
| WireFrame.RecvExact | resources/oidscripts/wireframe.py:50-64 | the buffer is filled from any fragmentation, or the peer closed |
| WireFrame.RecvFrame | src/host/agent/wire_frame.cpp:102-156 | pulls exactly one frame, with the specified refusals and in their order |
| WireFrame.SendFrame | resources/oidscripts/wireframe.py:27-47 | sends the encoding in two writes, or nothing |
| NpyText.IndexOfIsFirst | src/host/io/npy_decode.cpp:109-171 | substring search returns the first occurrence, and none only when there is none |
| NpyFormat.HeaderDescribed | src/host/io/npy_decode.cpp:65-274 | the reader finds in a written header exactly the dtype, dimensions and geometry it was written for |
| NpyFormat.NpyRoundTrip | src/io/buffer_export_core.cpp:228-306 | for every type, displayable shape and step, reading a written file succeeds with the same shape, no padding, the type its descriptor names and exactly the rows |
| NpyFormat.RowsAreTheRows | src/io/buffer_export_core.cpp:299-304 | row y of the file is row y of the buffer without its padding |
| NpyFormat.PayloadIsAligned | src/io/buffer_export_core.cpp:260-265 | the payload begins at a multiple of 64 |
| NpyFormat.ReexportIsIdentical | src/io/buffer_export_core.cpp:228-306 | writing what was read gives the same file byte for byte |
| NpyFormat.AcceptedIsConsistent | src/host/io/npy_decode.cpp:278-332 | whatever is accepted is displayable, unpadded, and carries exactly its bytes from the end of the input |
| NumpyFiles.NumpyFileRead | src/host/io/npy_decode.cpp:182-332 | every file NumPy writes with two or three dimensions, in either order, byte-order mark and header version, is refused exactly for a Fortran-ordered cube, an undisplayable shape or a payload of the wrong size, and otherwise read with its type, geometry and payload |
| NumpyFiles.ElementsInPlace | src/host/io/npy_decode.cpp:236-332 | in whatever is accepted every element is shown where it belongs: row and column of a C-ordered array are those of the image, of a Fortran-ordered one its column and row, shown transposed, and the bytes there are the element's own |
| NpyFormat.DictDescribed | src/host/io/npy_decode.cpp:92-171 | in a dict as NumPy writes it the reader finds the descriptor, the order and the shape, whichever they are |
| NpyRefusals.PreambleRefusedExactly | src/host/io/npy_decode.cpp:182-223 | each of the five refusals before the dict has its own condition on magic, version, length and size, and no other input meets it |
| NpyRefusals.DtypeReadExactly | src/host/io/npy_decode.cpp:65-106 | a descriptor names a type if and only if it is not big-endian and has the type's letter and, to its end, the type's size |
| NpyRefusals.IntsReadExactly | src/host/io/npy_decode.cpp:160-168 | a printed number, negative or not, is read if and only if it fits an int |
| NpyRefusals.QuotedReadExactly | src/host/io/npy_decode.cpp:109-126 | a quoted value is read if and only if it is what stands between the first two quotes after its key's first occurrence |
| NpyRefusals.OrderReadExactly | src/host/io/npy_decode.cpp:128-139 | the order is Fortran's if and only if, from its key on, True stands before any comma |
| NpyRefusals.MissingKeyExactly | src/host/io/npy_decode.cpp:109-126 | a missing key is reported if and only if the key occurs nowhere in the dict |
| NpyRefusals.MissingShapeExactly | src/host/io/npy_decode.cpp:141-171 | the same of the shape, whose other refusals are missing parentheses and bad numbers |
| NpyRefusals.ShapeRefusedExactly | src/host/io/npy_decode.cpp:236-274 | which ranks, orders and dimensions are refused, and how |
| NpyRefusals.DictRefusedInTurn | src/host/io/npy_decode.cpp:278-304 | the first complaint about a dict, of its descriptor, order, shape and geometry in turn, is the one reported |
| NpyRefusals.SizeRefusedExactly | src/host/io/npy_decode.cpp:313-328 | a payload is refused if and only if its size is not the geometry's |
| NpyCodec.WriteNpyHeader | src/io/buffer_export_core.cpp:248-278 | the padded, length-prefixed header |
| NpyCodec.ExportNpy | src/io/buffer_export_core.cpp:281-419 | header and row loop write the specified file, for exactly the known types |
| NpyCodec.ReadU32Le | src/host/io/npy_decode.cpp:47-56 | the shifting loop reads the little-endian number |
| NpyCodec.ParseHeader | src/host/io/npy_decode.cpp:182-223 | magic, version and length tests in order |
| NpyCodec.ExtractDims | src/host/io/npy_decode.cpp:152-170 | the separator-skipping loop reads the dimensions the specification reads |
| NpyCodec.DecodeNpy | src/host/io/npy_decode.cpp:278-332 | the whole reader, every refusal included |
| NpyCodec.ElementCountIsSmall | src/host/io/npy_decode.cpp:313-325 | once a shape is accepted, the size computed from it cannot overflow |
| NpyCodec.ExportThenDecode | src/host/io/npy_decode.cpp:278-332 | the two procedures compose to the unpadded buffer |
| SumTable.Mat.ComputeSumTable | testbench/main.cpp:197-287 | the matrix ends as the two-dimensional inclusive prefix sums of what it held, modulo the element width, whichever image the last pass wrote |
| SumTable.SumRows | testbench/main.cpp:246-278 | after logarithmically many passes the flag names the image whose cells hold whole row prefixes |
| SumTable.SumColumns | testbench/main.cpp:246-284 | the same down the columns |
| SumTable.StepDoublesRow | testbench/main.cpp:205-221 | one pass turns windows of a step into windows of twice the step |
| SumTable.StepDoublesBox | testbench/main.cpp:223-242 | the same down the columns |
| SumTable.KernelH | testbench/main.cpp:205-221 | the nested loops write every cell as one horizontal step |
| SumTable.KernelV | testbench/main.cpp:223-242 | the nested loops write every cell as one vertical step |
| SumTable.RoundLog2 | testbench/main.cpp:186-194 | floor of the binary logarithm, and -1 for zero |
| SumTable.PrefixSumRecurrence | testbench/main.cpp:197-287 | the prefix sums meet the usual inclusion-exclusion recurrence |
| TemplateArgs.SplitRecoversArguments | resources/oidscripts/debuggers/template_args.py:54-71 | a printed template's arguments come back trimmed and in order, if and only if the last is not blank and none prints a comma outside angle brackets |
| TemplateArgs.PiecesHaveNoOpenComma | resources/oidscripts/debuggers/template_args.py:34-51 | whatever text is split, no piece holds a comma at depth zero |
| TemplateArgs.FollowIsSubtree | resources/oidscripts/debuggers/template_args.py:90-102 | in a tidy name, following an index path through the text gives the printed subtree there, and fails exactly when there is none |
| TemplateArgs.FollowsExactlyWhenTidy | resources/oidscripts/debuggers/template_args.py:90-102 | all index paths do so if and only if the name is tidy: on every level no argument prints a space at its end or a comma outside brackets, and the last is not empty |
| TargPlaceholders.TargIsSubtree | resources/oidscripts/oidtypes/declarative.py:165-176 | a {targ:i.j} placeholder is scanned, read and substituted as the printed subtree at those indices, and fails exactly when the type has none |
| TargPlaceholders.TargAtIndices | resources/oidscripts/oidtypes/declarative.py:165-176 | for every path of numbers: the placeholder is replaced by what the subtree there prints as, or by the number it reads as where that prints, and fails exactly when there is no such subtree |
| TemplateArgs.ParametersAreSplit | resources/oidscripts/debuggers/template_args.py:34-51 | a function type of two parameters is one argument that comes back as two |
| TemplateArgs.MatchingAngle | resources/oidscripts/debuggers/template_args.py:20-31 | the loop finds where the bracket opened at start closes, or -1 |
| TemplateArgs.SplitTopLevelCommas | resources/oidscripts/debuggers/template_args.py:34-51 | the loop splits at exactly the commas outside brackets |
| TemplateArgs.SplitArguments | resources/oidscripts/debuggers/template_args.py:54-71 | the whole split, empty when there is no balanced list |
| MemberWalk.ListingIsExact | resources/oidscripts/debuggers/lldbbridge.py:163-188 | the listing holds, once each, exactly the names of observable variables and of paths through distinct member-bearing types to a first observable member, and under each name the first value found that the name stands for |
| MemberWalk.ListedAs | resources/oidscripts/debuggers/lldbbridge.py:129-188 | a path is listed under its variable's name and its members' joined, `this` left out |
| MemberWalk.MembersJoined | resources/oidscripts/debuggers/lldbbridge.py:129-188 | joining puts a dot before each name but the first |
| MemberWalk.HitsAreShown | resources/oidscripts/debuggers/lldbbridge.py:129-160 | every hit of the walk is such a path |
| MemberWalk.ShownAreHits | resources/oidscripts/debuggers/lldbbridge.py:129-160 | and every such path is a hit |
| MemberWalk.Lister.WalkMembers | resources/oidscripts/debuggers/lldbbridge.py:129-160 | the recursive descent terminates on any graph with finitely many type names and emits the walk's hits in order |
| MemberWalk.Lister.ObservableSymbols | resources/oidscripts/debuggers/lldbbridge.py:163-188 | found is the first of each emitted name, in discovery order |
| BufferCaching.Retained | resources/oidmcp/oidmcp/buffers.py:76-93 | an entry outlives any run of operations that touches fewer other keys than the capacity |
| BufferCaching.Evicted | resources/oidmcp/oidmcp/buffers.py:76-93 | and is gone once that many other keys have been put since its last use |
| BufferCaching.RunSound | resources/oidmcp/oidmcp/buffers.py:76-93 | over any run keys stay distinct and the capacity is never exceeded |
| BufferCaching.BufferCache.Get | resources/oidmcp/oidmcp/buffers.py:83-87 | a hit returns the value and becomes the newest; a miss changes nothing |
| BufferCaching.BufferCache.Put | resources/oidmcp/oidmcp/buffers.py:89-93 | the key becomes the newest and only the oldest entries go |
| FetchRuns.CurrentExactlyWhenUnchanged | resources/oidmcp/oidmcp/server.py:229-242 | whatever a debuggee has done since it started, every serial run answers from the cache with what it shows now if and only if it has shown nothing else under that name since the last notified stop |
| FetchRuns.OverlapExactlyWhenRepeated | resources/oidmcp/oidmcp/server.py:229-242 | every interleaving answers from the cache with what the generation pinged showed if and only if nothing else has been shown under that name since |
| FetchRuns.SameNumberIsExact | resources/oidmcp/oidmcp/server.py:229-242 | under any interleaving, a cached answer carrying the stop generation pinged was shown by its endpoint in exactly that one |
| FetchRuns.CachedAnswerIsExact | resources/oidmcp/oidmcp/server.py:219-242 | over every serial run of fetches, stops, restarts with fresh tokens and evictions, a cached answer carries the stop generation pinged and was shown in exactly that one |
| FetchRuns.CachedAnswerIsCurrent | resources/oidmcp/oidmcp/server.py:229-242 | in any serial run, it is what reading again now would give if the current generation has shown nothing else under that name |
| FetchRuns.CachedAnswerIsNeverOlder | resources/oidmcp/oidmcp/server.py:229-242 | with overlapping fetches it is still never from before the generation pinged nor from another endpoint |
| FetchRuns.StaleUntilNotified | resources/oidscripts/agentendpoint.py:112-113 | a run in which memory changed without a notified stop and the old contents are served |
| FetchRuns.OverlappingFetchReadsAhead | resources/oidmcp/oidmcp/server.py:229-242 | a run in which a fetch overlapping another would be served contents of a later generation than it pinged |
| FetchRuns.LaterNumberYetExact | resources/oidmcp/oidmcp/server.py:229-242 | and one in which it would be served, under the same later number, what the generation pinged showed |
| FetchRuns.StepKeeps | resources/oidscripts/agentendpoint.py:174-213 | every step of every interleaving keeps the log monotone and every cached entry accounted for by it |
| FetchRuns.FetchIsSerialRun | resources/oidmcp/oidmcp/server.py:201-242 | from any state a serial run reaches, a whole fetch -- ping, lookup, and on a miss read, reply and store, with anything happening in between -- continues that run; a cached answer is of the generation pinged and a fresh one no older |
| FetchRuns.Fetch | resources/oidmcp/oidmcp/server.py:201-242 | one connection serves the ping that keys the cache and the read of a miss; answer, endpoint and cache end as that run has them |
| FetchRuns.Connection.GetBuffer | resources/oidscripts/agentendpoint.py:174-213 | the reply holds what the debugger thread read and the generation as it is when put together |
| ViewerRetry.FirstAcceptingWins | resources/oidmcp/oidmcp/server.py:94-170 | whatever the selector, a viewer is reached if and only if it matches and accepts and every match tried before it refuses and can be removed |
| ViewerRetry.ResolvesFirst | resources/oidmcp/oidmcp/server.py:127-170 | resolution picks, of the entries that match, the one before all others: own pid as listed, then paired and alive, then paired, each by latest start |
| ViewerRetry.CallIsBounded | resources/oidmcp/oidmcp/server.py:94-122 | at most one refusal per discovery file and one more, and whoever is reached accepts and matches the selector |
| ViewerRetry.ResolveFinds | resources/oidmcp/oidmcp/server.py:127-170 | resolution picks a listed viewer that matches the selector, and fails only when none does |
| ViewerRetry.LatestIsFirstOfLatest | resources/oidmcp/oidmcp/server.py:149-149 | max picks the first of the latest start times |
| ViewerRetry.Discovery.CallViewer | resources/oidmcp/oidmcp/server.py:94-122 | the retry loop terminates with the specified outcome |

## Left out

- Rendering, windows, fonts, cameras, dialogs, settings and command lines: nothing here depends on what they compute.
- Real sockets, timers, file systems, permissions and process tables: the protocols see them as steps, readings and flags.
- JSON and regular-expression libraries: a JSON library is a writer and a reader of text, and a round trip asks of it only that the object in question survives. Dumping invalid UTF-8 is not modelled.
- ConnectionStop: run_async_op is modelled as the atomic steps of a thread, not as a method, because what matters is what other threads do between them.
- FramePacing: pacers have a non-negative period; wake() runs no callback that can throw.
- RequestPipeline.TeardownNeverStalls: a serve thread blocked in a read is freed by a failing read, a step that is always possible here; that stop() forces it is ConnectionStop's StoppedThreadEnds.
- RequestPipeline: a throwing enqueue listener is not modelled, and a handler is its authentication effect and its outcome, not its reply text.
- DeclarativeTypes: nodes of a shape that never passes validation collapse to one malformed node; validation is a predicate, not a list of messages; exceptions of get_casted_pointer itself, a template-argument resolver that raises KeyError, and the repr of a debugger value quoted in a message are outside the claim; the bridge never hands back a Python bool or float.
- DeclarativeMetadata.DeclarativeInspector.GetBufferMetadata: the source writes its fields out one after another where the model loops over them in that order.
- BufferGeometry: only sizes are modelled, not the narrowing of doubles to floats; size_t is 64 bits, so the guards that only a 32-bit build can reach are not.
- MessageExchange: fixed-width fields other than int are carried as their bytes, and a list that fails part-way is not returned in part.
- MessageExchange.Receive: reads a list of fields by recursion where callers chain read() calls.
- WireFrame: what Python's int() makes of strings, floats, null, lists and objects is any function, C++ refusing them all; the two JSON libraries are taken to parse a text alike where the readers are compared; an error frame that did not fit a frame itself is not sent.
- NpyFormat: for rows, the caller's buffer is as long as the last row needs; std::from_chars is modelled on decimal integers; the stream is assumed to accept every write.
- SumTable: elements are integers of a fixed width; floating-point sums would depend on the order of additions.
- TemplateArgs: printed names take angle brackets only from argument lists.
- TargPlaceholders: is about names read from their text, as LLDB's are; gdb's own template_argument is not part of this model.
- MemberWalk: type names are finitely many; an invalid type or an unnamed member is not modelled.
- FetchRuns: the decoder and metadata other than the stop generation are not modelled, and neither are viewer fetches, which are never cached.
- FetchRuns.CachedAnswerIsExact: is about one fetch at a time; OverlapExactlyWhenRepeated is about any interleaving.
- ViewerRetry: discovery entries do not appear or change while one call retries; who accepts and what can be removed stay fixed.
- Paging, channel layouts, contrast, `crop_region` and other single-branch helpers would only add easy members.

# Verification model of the camera-to-VLM pipeline

A Dafny model of the state machines between a camera topic and a vision-language model, with
machine-checked properties of them. `dafny verify dfyconfig.toml` checks everything.

- **Wire protocol** (`Bytes`, `Protocol`, `Decoders`, `Requests`, `Replies`, `Channels`,
  `Workers`, `PyServer`, `Clients`, `Session`, `Conversation`). The layout of a request is written down once, as `WireThen`,
  apart from the two encoders and the two decoders; each of the four is proved against it.
  A `Channel` is one end of a stream socket whose system calls transfer what an arbitrary
  schedule says. The loops that read and write are methods over it. `Session` is a byte-level state
  machine of one client with its worker, with partial transfers, crashes, timeouts and reconnects,
  for both client and worker pairs. `Conversation` runs the C++ client and worker objects on the two
  ends of a connection and shows that they carry out the session's steps.
- **Temporal window** (`TemporalWindow`, `VideoMetadata`). The rolling window of the temporal node,
  its encoding, and the frame indices the worker derives from the stamps.
- **Synchroniser and tracker** (`Synchroniser`, `Tracker`). Which pairs are published over a whole
  run, and what the tracker keeps.
- **Reasoner node** (`Reasoner`, `Suffixes`, `History`, `Template`). The depth-one queue cut into
  steps at its lock boundaries, the bounded observation history, the prompt template engine.
- **Knowledge graph** (`Graph`). The append-only fact log refines a plain picture of what is
  believed: a map from (entity, attribute) or relation to a value and the one fact it rests on.
- **Run lifecycle** (`RunLifecycle`). Request handlers, waiters, stoppers and child processes
  interleaved at the locked sections of the process manager and the run store. The sections
  are methods of the two classes. `Next` is one step of the whole system of threads, and `Console`
  shows that every locked section, run on the two objects, is such a step.
- **Small algorithms** (`BagSampling`, `EvenSelection`, `Quoting`).

Stamps and frame rates that travel on the wire are IEEE-754 bit patterns with their exact real value.
Everything else that is floating point in the code is `real` here. Differences and quotients of
stamps are exact.

Where the code and its own comments disagree, the model follows the code:

- `remove_relation` does not look at `require_known_entities` (`Graph.RemoveIgnoresKnownEntities`).
- The entity id pattern ends in `$` and so admits one trailing newline (`Graph.NewlineIsAdmitted`).
- `invalidate_fact` leaves the mirrored attribute on the entity (`Graph.InvalidationLeavesMirror`); when the
  mirror does stay exact is `Graph.MirrorStaysExact` and `Graph.MirrorAfterBatch`.
- A stop that outlives its last wait marks a live process as stopped, and the slot is free for a
  second one (`RunLifecycle.StopCanSurrender`, `RunLifecycle.SurrenderAdmitsSecond`).
- An exception in the completion callback is swallowed after the callback is marked as fired, so such a
  run stays starting or running for ever (`RunLifecycle.CallbackCanLoseRun`).
- With `drop_old_frames` off, a replaced frame is in no counter (`Reasoner.OverwriteBreaksConservation`).
- With a sample period of 0 equal stamps are submitted, and both workers refuse the window
  (`TemporalWindow.ZeroPeriodTakesEqualStamps`, `TemporalWindow.WindowReachesWorkers`).
- `_fold_single_quoted_scalar` names section 7.4 of YAML 1.2; single-quoted scalars are section 7.3.2.

## Model

| member | source | states |
|---|---|---|
| `Bytes.UnpackOfPack` | flashrt_temporal/ipc_protocol.py:32-92 | Unpacking the packed fields of a packed little-endian struct gives the fields back, for every field layout. |
| `Bytes.PackOfUnpack` | flashrt_temporal/ipc_protocol.py:32-92 | Every byte string of the right length is the packing of the fields read from it, so structs and byte strings correspond one to one. |
| `Bytes.LittleEndian` | flashrt_temporal/ipc_protocol.py:32-85 | Words travel least significant byte first. |
| `Doubles.ValExactly` | flashrt_temporal/ipc_protocol.py:32-55 | The value of a finite 64-bit pattern is its signed significand times the power of two its exponent names. |
| `Protocol.FlagsBijection` | include/edge_vlm_ros/ipc_protocol.hpp:36-52 | The flag word and the set of its bits, unknown ones included, determine each other. |
| `Protocol.FlagBits` | include/edge_vlm_ros/ipc_protocol.hpp:36-52 | The five defined flags are the bits 1, 2, 4, 8 and 16. |
| `Protocol.RequestHeaderBijection` | include/edge_vlm_ros/ipc_protocol.hpp:55-88 | A request header and its bytes determine each other (same field order and widths on both sides). |
| `Protocol.ImageHeaderBijection` | include/edge_vlm_ros/ipc_protocol.hpp:99-108 | The same for the per-image header. |
| `Protocol.TurnHeaderBijection` | include/edge_vlm_ros/ipc_protocol.hpp:90-96 | The same for the history entry header. |
| `Protocol.ResponseHeaderBijection` | include/edge_vlm_ros/ipc_protocol.hpp:110-121 | The same for the response header. |
| `Protocol.RequestHeaderFields` | include/edge_vlm_ros/ipc_protocol.hpp:55-88 | The bytes of a request header are its fields in declaration order, four or eight little-endian bytes each. |
| `Protocol.ImageHeaderFields` | include/edge_vlm_ros/ipc_protocol.hpp:99-108 | The same for the per-image header. |
| `Protocol.TurnHeaderFields` | include/edge_vlm_ros/ipc_protocol.hpp:90-96 | The same for the history entry header. |
| `Protocol.ResponseHeaderFields` | include/edge_vlm_ros/ipc_protocol.hpp:110-121 | The same for the response header. |
| `Protocol.SectionsInOrder` | include/edge_vlm_ros/ipc_protocol.hpp:29-53 | A message is header, extra image headers, primary image, extra images, timestamps, system text, prompt and history, in this order. |
| `Channels.Channel.ReadAll` | include/edge_vlm_ros/ipc_protocol.hpp:142-155 | Under every schedule of partial reads, interrupts, end of stream and errors: success means the buffer holds exactly the next bytes and exactly those were consumed; without failing calls it succeeds exactly when enough bytes arrive. |
| `Channels.Channel.WriteAll` | include/edge_vlm_ros/ipc_protocol.hpp:127-140 | Under every schedule of partial writes and interrupts the peer gets a prefix of the data, and all of it on success. |
| `Channels.Channel.RecvExact` | flashrt_temporal/ipc_protocol.py:95-104 | The Python chunk loop returns exactly the next `size` bytes, or nothing when the stream ends first. |
| `Decoders.HeaderChecksAgree` | flashrt_temporal/flashrt_ipc_worker.py:115-153 | The two header checks accept the same headers: the size limit already implies the width and height limits only C++ has. |
| `Decoders.CppDecodeExact` | src/inference_worker.cpp:139-317 | The C++ worker decodes a byte string to a message with some rest if and only if the string is the wire layout of that message followed by the rest and the message is acceptable. |
| `Decoders.PyDecodeExact` | flashrt_temporal/flashrt_ipc_worker.py:141-212 | The same if-and-only-if for `read_request` with its own acceptance condition. |
| `Decoders.DecodersAgree` | flashrt_temporal/flashrt_ipc_worker.py:115-212 | On every byte string the C++ worker accepts exactly when the Python worker accepts and the decoded request passes `validate_temporal_metadata`; message and leftover are then the same. |
| `Decoders.MessagesPrefixFree` | include/edge_vlm_ros/ipc_protocol.hpp:29-53 | Framing: no byte string starts with two different messages whose sections have the announced sizes, acceptable or not. |
| `Workers.ValidateTemporalMetadata` | include/edge_vlm_ros/inference_backend.hpp:129-175 | The index loops return true exactly for a positive finite rate, finite strictly increasing timestamps of the right count, neither for plain images, and spacing within a millisecond of the declared rate. |
| `Workers.PyTimestampsOk` | flashrt_temporal/flashrt_ipc_worker.py:187-194 | The finiteness check and the pairwise check together accept exactly the finite, strictly increasing lists. |
| `Workers.CppReadRequest` | src/inference_worker.cpp:139-317 | The reading half of the request loop refines the decoder under every read schedule, and tells an absent request from a refused one. |
| `Workers.PyReadRequest` | flashrt_temporal/flashrt_ipc_worker.py:141-212 | `read_request` refines its decoder under every read schedule. |
| `Workers.CppServeOne` | src/inference_worker.cpp:139-387 | One turn: an answered request was decoded from the front of the stream and exactly its response was written; the worker gives up on a reply only when that request's reply is too long, and a failed write leaves a prefix of the response. |
| `Workers.WriteResponse` | src/inference_worker.cpp:371-386 | Under every write schedule success means exactly the response layout was sent. |
| `Workers.CppServe` | src/inference_worker.cpp:139-387 | Over a whole connection: the requests handled are the first ones the stream holds, the bytes written are their responses, in order, one each; without failing calls the loop stops only where no acceptable request follows or at one whose reply is too long. |
| `Workers.ServeSent` | src/inference_worker.cpp:139-387 | End to end: what the C++ client writes for a list of requests, delivered in any pieces with any interrupts, is answered request by request with its id and the backend's reply to that very request, with nothing left over; the worker stops early exactly at the first reply that is too long. |
| `PyServer.PyServeOne` | flashrt_temporal/flashrt_ipc_worker.py:463-492 | One turn of the Python loop, its second answer from the exception handler included: what is written for each outcome, and when the worker dies. |
| `PyServer.PyServe` | flashrt_temporal/flashrt_ipc_worker.py:463-492 | Over a whole connection: as long as no write fails, the bytes written are the replies to the first requests of the stream, in order; without failing calls the loop stops only where no acceptable request follows or an error text is itself too long. |
| `PyServer.PyCodecRoundTrip` | flashrt_temporal/temporal_ros_node.py:73-137 | For every list of acceptable requests of the Python client, their bytes written back to back decode to exactly that list with nothing left over. |
| `PyServer.PyServeSent` | flashrt_temporal/flashrt_ipc_worker.py:463-492 | End to end: what the Python client writes for a list of acceptable requests, in any pieces, is answered request by request; reading the replies call by call it hears the engine's own text, encoding and time, or a failure with the text of what went wrong. Only an error text that is itself too long ends the worker. |
| `PyServer.PyResponseSays` | flashrt_temporal/flashrt_ipc_worker.py:470-492 | What one response says to the client, field by field, for a result, a result that is too long, and an exception. |
| `Requests.SentIsAccepted` | src/ipc_inference_backend.cpp:87-225 | Every request the C++ client does not reject itself is one the C++ worker accepts. |
| `Requests.CppSentFields` | src/ipc_inference_backend.cpp:147-225 | Every header field and section carries what the request says. |
| `Requests.AcceptedIsSendable` | src/inference_worker.cpp:139-317 | Conversely, whatever the worker accepts rebuilds to a request the client would send under the protocol limits. |
| `Requests.AcceptedExactly` | src/inference_worker.cpp:139-317 | The worker accepts exactly: right magic, version and pixel format, packed images, counts that go with the flags, sections of the announced sizes, and a request the client would send. |
| `Requests.SendableExactly` | src/ipc_inference_backend.cpp:92-145 | The configured limits only narrow the protocol limits, size by size. |
| `Requests.RequestRoundTrip` | src/ipc_inference_backend.cpp:92-225 | The request the worker hands to its backend is the one the client was given, except that the cache flag is cleared when there is no system message. |
| `Requests.StreamFraming` | src/inference_worker.cpp:139-317 | For any decoder that recovers single items from the front of a stream, items written back to back come out one by one. |
| `Requests.CodecRoundTrip` | src/ipc_inference_backend.cpp:92-225 | For every list of sendable requests, their bytes written back to back decode to exactly that list with nothing left over. |
| `Requests.PyRequestAccepted` | flashrt_temporal/temporal_ros_node.py:73-137 | A request of the Python client with at most 32 fitting frames and increasing stamps decodes unchanged at both workers. |
| `Requests.PySentIsConsistent` | flashrt_temporal/temporal_ros_node.py:93-137 | Whatever else is wrong with a request of the Python client, its sections have the sizes its headers announce. |
| `Requests.PyAcceptedExactly` | flashrt_temporal/temporal_ros_node.py:73-137 | The Python client checks no sizes itself; its request is taken by the Python worker if and only if there are at most 32 frames of fitting size, finite increasing stamps and a prompt within the limit. |
| `Requests.PySentHeaderOk` | flashrt_temporal/temporal_ros_node.py:99-124 | The header the Python client fills in passes the C++ checks and announces exactly the sizes sent. |
| `Requests.PySentFields` | flashrt_temporal/temporal_ros_node.py:99-137 | The Python client sends temperature 0.0, top_p 1.0, top_k 1, no system text and no history, and each frame with its own width, height and pixels. |
| `Clients.CppClient.Infer` | src/ipc_inference_backend.cpp:87-259 | A rejected request sends nothing and uses no id; otherwise the id goes up by one modulo 2^64, an answer means exactly this request was written and exactly one matching response was read, and every failure closes the connection. |
| `Clients.PyClient.Infer` | flashrt_temporal/temporal_ros_node.py:73-148 | The same for the Python client, which uses up an id before it checks the frame shapes. |
| `Replies.ReplyReadBack` | src/ipc_inference_backend.cpp:226-259 | A written response is read back by the call with its id, by either client, and refused by any other call. |
| `Replies.ReplyExactly` | src/ipc_inference_backend.cpp:226-259 | A client takes exactly the responses with the right magic, version and id whose three texts have the announced sizes, and for the C++ client do not exceed the limit; nothing else. |
| `Session.SessionSafety` | src/ipc_inference_backend.cpp:168-259 | In every interleaving of partial transfers, services, stray services, crashes, timeouts and reconnects: a returned answer was computed, during that call, from the message that call sent; a refused message is never answered; a call on an open connection finds both directions empty. |
| `Session.CppSessionSafety` | src/inference_worker.cpp:371-386 | Session safety for the C++ client and worker. |
| `Session.PySessionSafety` | flashrt_temporal/temporal_ros_node.py:87-148 | Session safety for the Python client and worker, for every request the client can send, acceptable or not. |
| `Session.AnswerStaysReachable` | src/ipc_inference_backend.cpp:87-259 | From every state of every run, crashed or in mid-call included, any accepted message can still be sent and answered with any fitting reply; so the safety results are not empty. |
| `Conversation.CppConverse` | src/ipc_inference_backend.cpp:87-259 | The C++ client's calls on one end and the C++ worker's turns on the other, under any schedules without failing calls: call i carries id first + i, each end reads exactly what the other wrote, every call returns the backend's reply to its own request, and together they are a run of the session that returns these answers to these messages in order. |
| `Conversation.IdsDiffer` | src/ipc_inference_backend.cpp:168-168 | Up to 2^64 calls in a row carry different ids. |
| `Conversation.RepliesAreNotConfused` | src/ipc_inference_backend.cpp:230-242 | The reply to one of these calls is refused by every other of them, by either client. |
| `Conversation.AnswersAreRead` | src/inference_worker.cpp:371-386 | The responses the worker writes one after another are the bytes the client's calls consume one after another. |
| `TemporalWindow.TemporalNode.ImageCallback` | flashrt_temporal/temporal_ros_node.py:263-299 | An image resets the window exactly when it is before the last sampled one or more than max_gap after it, and is sampled exactly when it converts and does not come within the period. On a stream that converts and steps by [sample_period, max_gap], the pending window is the last window_frames images. |
| `TemporalWindow.SteadyStreamIsSampled` | flashrt_temporal/temporal_ros_node.py:270-299 | Such a stream is never reset and every image of it is sampled. |
| `TemporalWindow.EveryResetIsDue` | flashrt_temporal/temporal_ros_node.py:270-284 | In every run, right before a reset in the log stands a sampled image, and the image that caused the reset was before it or more than max_gap after it. |
| `TemporalWindow.TemporalNode.TakeWindow` | flashrt_temporal/temporal_ros_node.py:301-309 | A window handed to the worker consists of the newest records since the last reset, so it never spans one; sequence numbers are consecutive and gaps lie in [sample_period, max_gap]. |
| `TemporalWindow.WindowReachesWorkers` | flashrt_temporal/temporal_ros_node.py:73-137 | The message of a window carries its frames, stamps and the prompt, and is decoded unchanged by both workers if and only if the window holds no equal stamps, which a positive sample period guarantees. |
| `TemporalWindow.ZeroPeriodTakesEqualStamps` | flashrt_temporal/temporal_ros_node.py:284-299 | With sample period 0 a node hands its worker a good window, the newest records since the last reset, that holds equal stamps. |
| `VideoMetadata.LiftInPlace` | flashrt_temporal/flashrt_ipc_worker.py:230-234 | The in-place pass turns its input into the pointwise least strictly increasing sequence nowhere below it. |
| `VideoMetadata.BuildVideoMetadata` | flashrt_temporal/flashrt_ipc_worker.py:226-255 | The frame indices are that least sequence over the rounded millisecond offsets; totals, rate and duration for both branches. |
| `Rounding.RoundExactly` | flashrt_temporal/flashrt_ipc_worker.py:231-231 | Rounding is to the nearest integer, and of two equally near ones to the even one. |
| `VideoMetadata.LeastIsUnique` | flashrt_temporal/flashrt_ipc_worker.py:230-234 | Only one sequence is least, so this fixes the indices completely. |
| `VideoMetadata.WideGapsAreExact` | flashrt_temporal/flashrt_ipc_worker.py:229-234 | When all gaps exceed 1 ms nothing is lifted and every index is within half a millisecond of the true offset. |
| `VideoMetadata.IndicesInRange` | flashrt_temporal/flashrt_ipc_worker.py:229-240 | The first index is 0 and all stay below total_num_frames. |
| `Synchroniser.PublishedExactly` | src/tracked_observation_adapter.cpp:142-184 | For any run whatsoever: two messages are published together if and only if they are of different streams with equal stamps and the first was neither replaced nor overtaken before the second came. |
| `Synchroniser.KeptExactly` | src/tracked_observation_adapter.cpp:142-184 | A message still sits in its slot exactly when nothing of its own stream came since and nothing as late of the other stream did. |
| `Synchroniser.IncreasingStampsPublish` | src/tracked_observation_adapter.cpp:142-184 | With increasing stamps per stream, a pair is published if and only if no further message of the first one's stream came in between, so a mismatch drop never loses a pair. |
| `Synchroniser.PublishedOnce` | src/tracked_observation_adapter.cpp:160-184 | No message is published twice. |
| `Synchroniser.OutOfOrderLosesPair` | src/tracked_observation_adapter.cpp:160-176 | Without increasing stamps the short form fails: a concrete run loses a pair. |
| `Synchroniser.TrackedObservationAdapter.Receive` | src/tracked_observation_adapter.cpp:142-184 | After every callback the published observations are exactly the pairs of the run so far, the counters account for every message, and the tracks in them are those of one run of the tracker, one update per published pair. |
| `Synchroniser.StaleExactly` | src/tracked_observation_adapter.cpp:142-158 | A callback counts a stale drop exactly when it replaces a message of its own stream that was neither overwritten nor overtaken. |
| `Synchroniser.PublishedTracksAreConsistent` | src/tracked_observation_adapter.cpp:186-197 | In every observation ever published the detections are the boxes of exactly the tracks that do not coast, and the tracks are sorted and coast no longer than allowed. |
| `Synchroniser.VanishedTracksStayAway` | src/tracked_observation_adapter.cpp:186-197 | A track that was shown and then is not shown is in no later observation. |
| `Synchroniser.UndetectedTracksExpire` | src/tracked_observation_adapter.cpp:186-197 | A track that is not detected in max_coast_age + 1 observations in a row is not shown from the last of them on. |
| `Tracker.IouInRange` | include/edge_vlm_ros/iou_tracker.hpp:112-139 | For all boxes, degenerate and negative ones included, the intersection is at most either clamped area and the score is in [0, 1]. |
| `Tracker.OverlapExactly` | include/edge_vlm_ros/iou_tracker.hpp:119-130 | The overlap is the length of the set of points the two intervals share. |
| `Tracker.IouExactly` | include/edge_vlm_ros/iou_tracker.hpp:129-138 | The score times A + B - I is I, with I the common area, or 0 where A + B - I is at most the float epsilon. |
| `Tracker.IouOfSelf` | include/edge_vlm_ros/iou_tracker.hpp:112-139 | A box of area above the epsilon scores 1 against itself. |
| `Tracker.IouIsSymmetric` | include/edge_vlm_ros/iou_tracker.hpp:112-139 | The score is symmetric. |
| `Tracker.IouOfDisjoint` | include/edge_vlm_ros/iou_tracker.hpp:112-139 | Boxes that do not meet score 0. |
| `Tracker.IouOfHalfShifted` | include/edge_vlm_ros/iou_tracker.hpp:112-139 | Two unit boxes half a side apart score a third. |
| `Tracker.IouTracker.Update` | include/edge_vlm_ros/iou_tracker.hpp:51-109 | The loops compute a greedy matching in which each track takes its best free compatible detection or none, and the track list that follows from it. |
| `Tracker.MatchingRules` | include/edge_vlm_ros/iou_tracker.hpp:57-84 | A track takes a free detection of its class that is at least as good against its predicted box as every other and good enough, and none only if none is. |
| `Tracker.OwnBoxIsMatched` | include/edge_vlm_ros/iou_tracker.hpp:57-84 | A track whose predicted box is detected, with nothing else of its class free, takes that detection. |
| `Tracker.TracksGoOn` | include/edge_vlm_ros/iou_tracker.hpp:77-93 | Field by field: a matched track takes over the detection and its motion; an unmatched one moves on by its velocity. |
| `Tracker.FreeDetectionsStartTracks` | include/edge_vlm_ros/iou_tracker.hpp:95-105 | A detection nobody took starts a track with a new id, at rest, of age 1. |
| `Tracker.StepKeepsInv` | include/edge_vlm_ros/iou_tracker.hpp:51-109 | One update keeps the track list invariant and never lowers the id counter. |
| `Tracker.RunKeepsInv` | include/edge_vlm_ros/iou_tracker.hpp:51-109 | After every update of every run the list is strictly sorted by id, ids are below the counter, and no track coasts beyond the limit. |
| `Tracker.DetectionsAreSeen` | include/edge_vlm_ros/iou_tracker.hpp:51-109 | The boxes of the tracks that are not coasting are exactly the detections, each once. |
| `Tracker.GoneForGood` | include/edge_vlm_ros/iou_tracker.hpp:80-109 | An issued id that is no longer live never comes back. |
| `Tracker.UnmatchedExpires` | include/edge_vlm_ros/iou_tracker.hpp:77-93 | A track unmatched for max_coast_age + 1 updates in a row is gone for good. |
| `Reasoner.AtMostOnce` | src/vlm_reasoner_node.cpp:889-1029 | With dropping on and source sequences that never decrease, in every interleaving `infer` sees strictly increasing sequences, each once. |
| `Reasoner.AcceptedIsPendingAndActive` | src/vlm_reasoner_node.cpp:1153-1187 | With dropping on, the accepted set is at every moment exactly the pending and the active non-zero sequence, and these differ. |
| `Reasoner.FramesConserved` | src/vlm_reasoner_node.cpp:1070-1117 | Between callbacks, sampled = success + failure + dropped + pending + in flight holds if and only if no frame was overwritten with dropping off. |
| `Reasoner.ReasonerNode.Exits` | src/vlm_reasoner_node.cpp:844-903 | Once the stopped worker has drained, sampled = success + failure + dropped (+ overwritten frames, none with dropping on). |
| `Reasoner.ReasonerNode.TrackedEnqueues` | src/vlm_reasoner_node.cpp:1153-1187 | An observation takes the slot exactly when its sequence is not completed or passed, not pending and not active, so a larger one than any before always does; the replaced frame is counted and its claim given up. |
| `Reasoner.ReasonerNode.ImageArrives` | src/vlm_reasoner_node.cpp:1070-1095 | The sampler takes a stamp exactly when it is the first, moves backwards, or is a period later. |
| `Reasoner.ReasonerNode.Finishes` | src/vlm_reasoner_node.cpp:1020-1029 | The end of a turn frees the sequence; only an inferred frame becomes the last completed one. All invariants hold again. |
| `Reasoner.OverwriteBreaksConservation` | src/vlm_reasoner_node.cpp:1166-1178 | With dropping off a concrete run makes a frame vanish from the counters. |
| `Suffixes.LongestIncremental` | src/vlm_reasoner_node.cpp:789-816 | For any limit that stays satisfied when the front is cut, trimming after each append gives the same window as trimming the whole history at once. |
| `Suffixes.LongestIsLongest` | src/vlm_reasoner_node.cpp:789-816 | The trimmed window is the only longest fitting suffix. |
| `History.ObservationHistory.UpdateAfterResponse` | src/vlm_reasoner_node.cpp:789-816 | The deque is always the longest suffix, within both limits, of all recorded responses since the last clear, and clears happen exactly on the configured condition. |
| `History.FitsExactly` | src/vlm_reasoner_node.cpp:773-787 | What fits: at most the allowed entries, and unless unlimited all answers together, with the prompts in structured delivery, within the character limit. |
| `History.ObservationHistory.MaybeResetBeforeRequest` | src/vlm_reasoner_node.cpp:757-771 | The periodic reset clears exactly when due. |
| `History.TruncateHistory` | web_console/experiment_engine.py:246-262 | The block is the join of the longest suffix whose join, separators included, fits the budget. |
| `History.JoinExactly` | web_console/experiment_engine.py:246-262 | Parts are joined by "; ". |
| `History.CutTwice` | web_console/experiment_engine.py:246-262 | Cutting to the last entries and then to the budget gives the longest suffix fitting both. |
| `History.ExperimentHistory.Block` | web_console/experiment_engine.py:530-593 | Each prompt shows the longest suffix of all successful responses of the experiment that fits both limits, although older ones were forgotten on the way. |
| `Template.TokensExactly` | src/vlm_reasoner_node.cpp:100-178 | Well-formed templates and lists of tokens correspond one to one. |
| `Template.RenderTemplate` | src/vlm_reasoner_node.cpp:138-178 | The scanning loop renders exactly the substitution of the tokens, and throws exactly on malformed templates or unknown variables. |
| `Template.ExtractTemplateVariables` | src/vlm_reasoner_node.cpp:100-136 | The scanning loop returns exactly the variable names among the tokens, and throws exactly on malformed templates or bad names. |
| `Template.ValidatedAlwaysRenders` | src/vlm_reasoner_node.cpp:702-755 | A template that passed validation renders on every frame. |
| `Template.RenderConcat` | src/vlm_reasoner_node.cpp:138-178 | Rendering distributes over concatenation behind a well-formed template. |
| `Template.RenderVariable` | src/vlm_reasoner_node.cpp:138-178 | Rendering is single-pass: a value appears verbatim, braces and all. |
| `Template.VariablesMean` | src/vlm_reasoner_node.cpp:744-753 | What each of the six variables renders to; system instruction and context are blank in structured delivery. |
| `Template.UndefinedThrows` | src/vlm_reasoner_node.cpp:138-178 | A variable that is not defined makes rendering throw, wherever it stands. |
| `Template.ExtractExactly` | src/vlm_reasoner_node.cpp:100-136 | Extraction succeeds exactly for well-formed templates whose names are non-empty and free of braces, and gives those names. |
| `Template.RenderEscaped` | src/vlm_reasoner_node.cpp:138-178 | Rendering a brace-doubled string gives the string back. |
| `Graph.GraphUpdater.Apply` | knowledge_graph/graph_updater.py:197-213 | From any valid store with fresh fact ids, a batch leaves exactly the belief and verdicts that the plain model reaches update by update, counts them rightly, never removes or revalidates a fact and adds none below the confidence threshold; an attribute shown on an entity is stale afterwards exactly when its last touch invalidated its fact. |
| `Graph.GraphUpdater.ApplySingle` | knowledge_graph/graph_updater.py:219-252 | One update: validity is kept, the belief moves as in the plain model, a rejected update changes nothing, one below the threshold is rejected whatever its operation, and a new fact carries exactly what the update says. |
| `Graph.VerdictExactly` | knowledge_graph/graph_updater.py:219-370 | Which updates are accepted, operation by operation: the confidence gate, the schema checks and the known entities. |
| `Graph.EffectExactly` | knowledge_graph/graph_updater.py:268-370 | What an accepted update changes: one entry at most, and the entities it mentions. |
| `Graph.EntitiesOnlyGrow` | knowledge_graph/graph_store.py:42-51 | Known entities keep their kind and date and change at most in the attribute set; what a new one starts with. |
| `Graph.TruesExactly` | knowledge_graph/graph_updater.py:197-213 | The counts are the numbers of the verdicts. |
| `Graph.EntityIdExactly` | knowledge_graph/schema.py:68-74 | An entity id is made of letters, digits, underscore and hyphen, with the newline that may follow at most 128 characters. |
| `Graph.GraphUpdater.OpSetAttribute` | knowledge_graph/graph_updater.py:280-315 | The old fact is invalidated, one new fact with the clamped confidence backs the new value, and the entity mirrors it. |
| `Graph.GraphUpdater.OpAddRelation` | knowledge_graph/graph_updater.py:317-352 | Both endpoints exist afterwards; a relation believed already gets no second fact. |
| `Graph.GraphUpdater.OpRemoveRelation` | knowledge_graph/graph_updater.py:354-360 | Exactly the belief in that relation goes; entities and fact ids stay. |
| `Graph.GraphUpdater.OpInvalidateFact` | knowledge_graph/graph_updater.py:362-370 | Exactly the belief that rests on the fact goes; with none, the update is rejected and nothing changes. |
| `Graph.GraphUpdater.EnsureEntity` | knowledge_graph/graph_updater.py:254-266 | False exactly for an unknown entity under the strict policy, and then nothing changes. |
| `Graph.QueriesAnswerBelief` | knowledge_graph/graph_store.py:115-139 | In every valid store the two queries return the one fact the belief rests on, or none. |
| `Graph.RejectedLeaveNoTrace` | knowledge_graph/graph_updater.py:197-213 | Leaving the rejected updates out of a batch gives the same belief, and the rest are all accepted again. |
| `Graph.BatchSplits` | knowledge_graph/graph_updater.py:197-213 | Applying two batches in turn is applying their concatenation. |
| `Graph.GraphStore.InvalidateFact` | knowledge_graph/graph_store.py:88-103 | True exactly for a known valid fact, which keeps everything but its validity and provenance. |
| `Graph.ForgetKey` | knowledge_graph/graph_store.py:88-103 | Invalidating the facts for one key removes that belief and no other. |
| `Graph.RepeatsAreNoOps` | knowledge_graph/graph_updater.py:268-352 | Adding an entity or relation again, after any batch of updates about other things, is accepted and changes nothing. |
| `Graph.LaterUpdatesWin` | knowledge_graph/graph_updater.py:280-360 | With any batch about other things in between, removing a relation undoes adding it and setting an attribute again makes up for the first time: the belief is the one reached without the first update, and the batch fares the same. |
| `Graph.BatchIgnores` | knowledge_graph/graph_updater.py:219-370 | Updates are independent: a batch that names neither a key nor its fact does the same whatever is believed about that key, and leaves it alone. |
| `Graph.RemoveIgnoresKnownEntities` | knowledge_graph/graph_updater.py:354-360 | Under every policy `remove_relation` is accepted if and only if it is well formed and confident enough, known entities or not, against the class comment. |
| `Graph.NewlineIsAdmitted` | knowledge_graph/schema.py:68-74 | An id followed by a newline is valid exactly when the id is and is shorter than the limit. |
| `Graph.MirrorStaysExact` | knowledge_graph/graph_updater.py:280-370 | If the entities show exactly what is believed about attributes, they still do after one update if and only if it does not invalidate a valid attribute fact with enough confidence, which a caller can look up beforehand. |
| `Graph.StaleAfterBatch` | knowledge_graph/graph_updater.py:197-370 | After any batch an attribute is shown without belief if and only if the last accepted update to touch it invalidated its fact, or none touched it and it was so before. |
| `Graph.MirrorAfterBatch` | knowledge_graph/graph_updater.py:197-370 | After any batch an exact mirror is exact if and only if no attribute was last touched by invalidating its fact. |
| `Graph.InvalidationLeavesMirror` | knowledge_graph/graph_updater.py:362-370 | The exception happens: a store in which a fact was invalidated directly believes nothing but still shows the value. |
| `RunLifecycle.ProcessManager.TryReserve` | web_console/process_manager.py:73-86 | The slot is granted exactly when nothing is reserved and no process is unstopped. |
| `RunLifecycle.ProcessManager.ClaimCompletion` | web_console/process_manager.py:237-243 | Test and set: only the first caller gets an outcome. |
| `RunLifecycle.RunStore.FinalizeRun` | web_console/run_store.py:93-109 | A terminal or unknown record is left alone, any other takes the update. |
| `RunLifecycle.RunStore.UpdateRunIfStatus` | web_console/run_store.py:73-91 | Compare and set on the status, returning the record as it then is. |
| `RunLifecycle.NextKeepsInv` | web_console/process_manager.py:58-248 | Every step of every thread keeps the invariant behind the following results. |
| `RunLifecycle.Console.SavesManifest` | web_console/server.py:785-797 | Writing the first manifest is the step Start. |
| `RunLifecycle.Console.Reserves` | web_console/process_manager.py:73-86 | The reservation check, run on the manager, is the step Reserve, and its result says where the handler goes on. |
| `RunLifecycle.Console.ReleasesSlot` | web_console/process_manager.py:111-114 | Giving the slot back is the step SpawnFails. |
| `RunLifecycle.Console.Registers` | web_console/process_manager.py:105-107 | Registration is the step Register. |
| `RunLifecycle.Console.MarksRunning` | web_console/server.py:974-977 | The compare and set after the launch is the step MarkRunning. |
| `RunLifecycle.Console.MarksFailed` | web_console/server.py:950-972 | The write after a refusal or a failed launch is the step MarkFailed. |
| `RunLifecycle.Console.RecordsStop` | web_console/process_manager.py:181-182 | Putting the stop on record is the step StopIsRecorded. |
| `RunLifecycle.Console.MarksStopped` | web_console/process_manager.py:204-206 | A stopper's mark, with what its poll returned, is the step StopMarks. |
| `RunLifecycle.Console.MarksExited` | web_console/process_manager.py:226-230 | The waiter's mark is the step WaitEnds. |
| `RunLifecycle.Console.Claims` | web_console/process_manager.py:237-243 | Test and set on the manager is the step Claim, and its result says whether this thread runs the callback. |
| `RunLifecycle.Console.Finalises` | web_console/server.py:940-941 | The callback's write to the store is the step Finalise. |
| `RunLifecycle.Console.SwallowsException` | web_console/process_manager.py:244-248 | A callback that raised is the step CallbackRaises: nothing is written and the thread is through. |
| `RunLifecycle.OneRunAtATime` | web_console/process_manager.py:73-114 | In every interleaving at most one run is reserved or unstopped, and a start is let in exactly when there is none. |
| `RunLifecycle.CallbackOnceAfterStop` | web_console/process_manager.py:176-248 | In every interleaving a completion callback runs at most once, and only after its run is marked stopped. |
| `RunLifecycle.ManifestLifecycle` | web_console/server.py:797-976 | The statuses of every manifest are starting, optionally running, then one terminal status. |
| `RunLifecycle.TerminalIsFinal` | web_console/run_store.py:73-109 | Whatever happens later, a terminal manifest stays as it is. |
| `RunLifecycle.ManifestsAreTruthful` | web_console/server.py:799-815 | completed means and records exit code 0, failed means not launched or another exit code, which is recorded, both without a stop recorded before the exit; a stop recorded before the exit is never reported otherwise; a recorded exit code is the real one. |
| `RunLifecycle.QuietRunsAreTerminal` | web_console/process_manager.py:233-248 | Once the handler and all threads of a run are through, the callback of a launched run has been called, and the manifest is terminal if and only if the callback did not raise. |
| `RunLifecycle.LostRunsStayOpen` | web_console/process_manager.py:233-248 | A run whose callback raised is never finished, whatever happens later: nobody calls it again. |
| `RunLifecycle.CallbackCanLoseRun` | web_console/server.py:799-941 | That happens for every exit code: a run ends with everybody through and a manifest that says running. |
| `RunLifecycle.LiveHoldsSlotUnlessSurrendered` | web_console/process_manager.py:176-207 | A live process holds the slot if and only if no stop gave up on it. |
| `RunLifecycle.AtMostOneAlive` | web_console/process_manager.py:176-207 | Of two live processes, a stop gave up on one. |
| `RunLifecycle.StopCanSurrender` | web_console/process_manager.py:189-207 | The condition is needed: any running process can survive its stop and leave the slot free ... |
| `RunLifecycle.SurrenderAdmitsSecond` | web_console/process_manager.py:73-106 | ... and then the next start brings a second process to life. |
| `RunLifecycle.FirstRunGetsUnderWay` | web_console/process_manager.py:58-106 | A registered, live, unstopped process is reachable, so that situation does arise. |
| `BagSampling.ExtractFrames` | scripts/extract_bag_frames.py:215-262 | On a chronological bag the picked messages are decodable, in range and spaced, and no selection within the quota is longer or earlier anywhere; on any bag the frames are numbered from 0 and come from distinct messages in order. |
| `BagSampling.ExtractedCount` | scripts/extract_bag_frames.py:215-262 | The loop extracts exactly min(max_frames, M) frames. |
| `BagSampling.ExtractedFramesAreInRange` | scripts/extract_bag_frames.py:215-262 | On a chronological bag the frames lie in the window, both ends included, and are at least the interval apart. |
| `BagSampling.EveryFrameIsTaken` | scripts/extract_bag_frames.py:215-262 | When every message is decodable, in range and far enough from the one before, all are taken up to the quota. |
| `BagSampling.CountIsOptimal` | scripts/extract_bag_frames.py:215-262 | Being ahead of every selection within the quota amounts to that number. |
| `BagSampling.LargestExists` | scripts/extract_bag_frames.py:215-262 | M, the size of the largest spaced selection, exists for every bag. |
| `EvenSelection.SelectsEvenIndices` | scripts/benchmark/vlm_multiframe_report.py:79-88 | For 2 <= count <= n every selected frame, the full selection included, is the one at the rounded even index. |
| `EvenSelection.SelectFrames` | scripts/benchmark/vlm_multiframe_report.py:79-88 | An error exactly when more frames are asked for than there are; otherwise as many as asked for. |
| `EvenSelection.FullSelectionIsIdentity` | scripts/benchmark/vlm_multiframe_report.py:84-86 | The special case for all frames agrees with the general formula. |
| `EvenSelection.GapsAreEven` | scripts/benchmark/vlm_multiframe_report.py:79-88 | Consecutive indices differ by the floor or the ceiling of (n-1)/(count-1), and by it exactly when it is whole. |
| `EvenSelection.EndsAreMet` | scripts/benchmark/vlm_multiframe_report.py:79-88 | The first index is 0, the last n - 1, and every one is within half a frame of its ideal place. |
| `EvenSelection.IndicesClimb` | scripts/benchmark/vlm_multiframe_report.py:79-88 | The indices are strictly increasing. |
| `Quoting.CloseIndexExactly` | web_console/server.py:160-175 | The search finds an index exactly when a quoted text closes there, and that text is unique. |
| `Quoting.FindClose` | web_console/server.py:160-175 | The scanning loop computes that index. |
| `Quoting.QuotingRoundTrip` | web_console/server.py:199-199 | Undoubling the quotes of a doubled text gives the text back. |
| `Quoting.Fold` | web_console/server.py:178-199 | The folding loop joins with spaces or line breaks and then undoubles the quotes. |
| `Quoting.FoldRoundTrip` | web_console/server.py:178-199 | Folding the quoted lines of any text, blank lines included, gives the text back. |
| `Quoting.FoldOfTwo` | web_console/server.py:178-199 | Two quoted lines are joined by a space, or by as many line breaks as there are blank lines between them. |

## Left out

- Decoders.CppDecodeExact: 32-bit floats (temperature, top_p) are carried as opaque words.
- Requests.PyAcceptedExactly: sections of 4 GiB and more, whose announced size would wrap, are excluded by its hypothesis; so are they in Session.PySessionSafety.
- Conversation.CppConverse: exchanges that fail, and the Python pair, are in Session only, as steps of its state machine.
- Session.SessionSafety: reply padding and the wrap of a 64-bit request id are modelled, but after 2^64 calls on one client ids repeat; safety does not rest on ids being distinct, since a connection carries one call at a time.
- Workers.CppServe: `g_stop`, the test hang hook and the inference watchdog end the process and appear only as crashes in Session.
- Workers.ValidateTemporalMetadata: the differences and the quotient compared with the declared rate are exact reals, not doubles.
- VideoMetadata.BuildVideoMetadata: the product with 1000.0 is exact before rounding; the median branch of `effective_fps` is not reached from it.
- TemporalWindow.TemporalNode.ImageCallback: one atomic step, though a reset releases the lock once in the middle; a worker that takes the pending window there does what it would have done just before the callback. Stamps are finite doubles.
- TemporalWindow.TemporalNode.TakeWindow: the shutdown branch of the worker loop and publication of the result.
- Synchroniser.TrackedObservationAdapter.Receive: stamps are natural numbers, totally ordered as seconds and nanoseconds are; message contents besides the boxes are left out.
- Tracker.IouTracker.Update: scores and positions are reals, so no rounding and no NaN; the denominator test is against the single-precision epsilon.
- Reasoner.AtMostOnce: with source sequences that decrease, `last_completed_source_sequence_` can move backwards; the hypothesis of ordered sequences stays. The minimum inference interval, which only delays the worker, and a failing backend start are left out, as is wrap of the 64-bit counters.
- Template.RenderEffectivePrompt: the texts of the variables are parameters; how the tracker context is formatted is left out.
- Graph.GraphUpdater.Apply: entities and facts are values in maps, so aliasing of returned objects and the insertion order of facts are not captured; fresh fact ids and the clock are parameters; extraction of the update list from model output is left out.
- RunLifecycle.OneRunAtATime: failure to create a thread or to look up the process group of a child, eviction of old runs, the run id pattern, log collection and failures of the file system are left out; run ids are fresh. What makes the completion callback raise, such as an undecodable manifest among the artifacts, is not modelled, only that it can. A stopper's poll may miss the exit code of a process that just exited at any time, not only while the waiter holds the wait lock.
- BagSampling.ExtractFrames: the window is given in nanoseconds; its derivation from offsets, duration and target count is left out. Optimality is for chronological bags with non-negative timestamps; the loop breaks off at the first message past the end.
- EvenSelection.SelectsEvenIndices: the step is an exact quotient, not a double.
- Quoting.FoldRoundTrip: the line parser around the two functions is left out; blank parts before the first or after the last text are dropped by the loop and are not part of the statement.
- ROS publishers, subscriptions and parameters, logging, benchmark files, image conversion, inference engines, sockets and signals, HTTP and HTML, dataset and model discovery: input and output, or opaque calls.
- UTF-8: texts on the wire are byte strings.
- The distillation package, the review store, the latest-value stage and salient subgraph retrieval: simpler properties.

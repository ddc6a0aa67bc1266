# mod_audio_stream: a verified model

The module streams call audio from FreeSWITCH to a WebSocket server and plays audio that comes
back. This project models the parts that hold its state and arithmetic and proves what they keep:

| file | what it models |
|---|---|
| `Frames.dfy`, `Receiver.dfy`, `SendQueue.dfy` | WebSocket framing (sections 5.2 and 5.3 of RFC 6455), the incremental reader, the bounded send queue |
| `WireFormat.dfy` | the same frames in plain numbers, masked and unmasked: exactly what is read, what is written, and whole streams from a server |
| `ClientModel.dfy`, `Offers.dfy`, `Pongs.dfy`, `WsClient.dfy` | the client as a value and its runs; from the producers' calls to the bytes on the wire; its answers to pings; the class whose methods are proved against it |
| `Worker.dfy`, `ConnectionState.dfy` | `connect`, `disconnect` and the worker thread under every interleaving: states and callbacks |
| `Reconnect.dfy`, `Shutdown.dfy`, `Sessions.dfy` | when `connect` ends the program; when a `disconnect` is honoured; what the state tells, and how a session ends |
| `Playback.dfy` | the playback queue: buffer, chunk counter, sequence number, response flag, events |
| `Packetizer.dfy` | media frames into packets of one buffer each, with and without resampling |
| `Lifetime.dfy`, `Teardown.dfy` | the shared pointer to the streamer: senders, the one cleanup, the worker's callbacks, and the destruction; that it can always be reached |
| `Base64.dfy`, `EncodedText.dfy`, `LineBreaks.dfy`, `KeyEncoders.dfy` | the base64 codec, its text character by character, its line breaking, and the two further encoders (sections 3.5, 4 and 5 of RFC 4648) |
| `Utf8.dfy`, `Utf8Syntax.dfy`, `WsUri.dfy` | the UTF-8 check (sections 3 and 4 of RFC 3629); the URI check and the URL splitter |
| `Bytes.dfy`, `Division.dfy` | bytes, results, concatenation; division with remainder |

The methods follow the C++ branch by branch and are proved equal to specification functions; the
lemmas prove what those functions promise, over all inputs and all runs. Bytes are `bv8`, integers
are unbounded, and three widths are written out: the 32-bit position of `base64_encode`, the
`size_t` sum of header and payload length, the range of `atoi`. The network,
the random masks, the resampler, the media frames and the scheduler are arbitrary inputs. The
history the claims speak of (bytes on the wire, items accepted, callbacks) is ghost state or part
of the specification.

## Where the code falls short of what it promises

Each of these is stated with the exact condition or with a run that shows it.

- A write that fails and then recovers within one drain reorders the queue
  (`SendQueue.OrderExactly`, for any writes, partial ones included; two items that swap in
  `SendQueue.RecoverySwaps`). A frame of which only a part is taken leaves a wire that is no longer
  whole frames (`SendQueue.WholeExactly`).
- A `disconnect()` is not always honoured. One that clears `running_` between the exchange of
  `connect()` and its store of `running_` has no effect: both calls return and the client stays connected
  (`Shutdown.LostFromTheStart`). One that comes while the connection is being set up is
  overwritten by the store of `OPEN`: the client opens, leaves and reports an unexpected close,
  1006 (`Shutdown.DisconnectDuringSetup`). `Shutdown.DisconnectHonoured` says exactly when each
  can still happen. One whose store of CLOSING comes after a set-up has failed leaves a client that
  can never connect again (`Shutdown.StaysConnectable`, `Shutdown.LostForGood`).
- A client that has once been open can never connect again (`Sessions.NeverReconnects`): only a
  failed set-up leads back to DISCONNECTED, which `connect()` asks for (`Sessions.StateTells`).
- `connect()` ends the program exactly if it claims the connection while the last worker is not
  joined or detached, and nobody does that before it makes the new one (`Reconnect.EndsExactly`);
  a failed set-up with no `disconnect()` is such a case (`Reconnect.ReconnectWithoutJoin`).
- A cleanup run by the worker's own error callback lets the streamer be destroyed under the worker,
  which then still tests a callback of the client (`Lifetime.WorkerIsLate`; the exact condition is
  `Lifetime.LateExactly`).
- `queue_completed` does not always mean that the audio has been played: an injection fires it
  exactly if what is left in the buffer is no more than the ledger's surplus
  (`Playback.CompletesExactly`). One rejected write or dropped frame leaves a counted chunk behind
  and, for whole-frame audio, keeps it from firing until the next break (`Playback.OneDropStrands`,
  `Playback.WholeFramesComplete`). Partial frames make it fire early, with whole frames left that
  are not played until more audio comes (`Playback.CompletesEarlyExactly`,
  `Playback.HalvesCompleteEarly`).
- The `remaining` field of a `chunk_played` event is missing exactly if the partial frames accepted
  since the last break, less the losses, exceed the buffer by a frame (`Playback.RemainingMissing`;
  two writes of half a frame do it in `Playback.HalvesHideRemaining`).
- A media frame size that does not divide the buffer jams the forward path for good
  (`Packetizer.UniformExactly`; for any sizes, `Packetizer.MixedExactly`): 30 ms frames with a `STREAM_BUFFER_SIZE` of 40 send nothing
  (`Packetizer.ThirtyMilliseconds`).
- From 2^32 bytes on, the 32-bit position of `base64_encode` wraps and its loop does not end
  (`Base64.EncodeEndsExactly`).
- The URL variant of `base64_encode` pads with dots, where section 5 of RFC 4648 has equal signs
  (`EncodedText.TextOf`); the decoder takes both.
- A URI of 4096 characters or more is accepted but cut (`WsUri.CopyIsWhole`).

## Model

| member | source | states |
|---|---|---|
| `Frames.ParseFrame` | ws_client.cpp:688-708 | a whole frame is at least two bytes, fits the buffer, and its size is header plus announced payload |
| `Frames.ParseFrameAppend` | ws_client.cpp:688-708 | bytes that arrive later never change the verdict on a frame already recognised |
| `Frames.ParseAllAppend` | ws_client.cpp:686-738 | reading may stop anywhere and go on with the residue and what came since, with the same frames and residue as reading at once |
| `Frames.ParseEncoded` | ws_client.cpp:630-663 | an encoded frame, whatever follows it, reads back as its opcode and payload and takes exactly its own bytes |
| `Frames.PrefixIncomplete` | ws_client.cpp:688-708 | an encoded frame cut short anywhere is neither recognised nor taken for another |
| `Frames.FramingRoundTrip` | ws_client.cpp:638-714 | any list of opcodes and payloads under any masks, in all three length forms, reads back as that list with nothing left over |
| `Frames.EncodingIsMinimal` | ws_client.cpp:642-652 | no masked frame a reader accepts carries the same payload in fewer bytes |
| `Receiver.UnmaskedPieces` | ws_client.cpp:710-714 | unmasking in place makes the payload and touches nothing behind the frame |
| `Receiver.ConsumeAgrees` | ws_client.cpp:686-738 | one call yields the events of all frames up to the first close, and without a close leaves no whole frame |
| `Receiver.ChunkingIndependence` | ws_client.cpp:438-441 | for every stream and every split into reads, events, close and residue are those of the whole stream read at once |
| `WireFormat.ReadsFrame` | ws_client.cpp:688-714 | every frame of section 5 of RFC 6455, masked or not, its length in any of the three forms, is read as its final bit, its opcode and its payload, whatever follows it |
| `WireFormat.ReadsExactly` | ws_client.cpp:688-714 | what the reader takes for a frame of so many bytes is exactly what that section calls one |
| `WireFormat.PrefixWaits` | ws_client.cpp:688-708 | such a frame that has not come whole is waited for |
| `WireFormat.ReadsServerFrame` | ws_client.cpp:688-708 | the unmasked frame a server makes of any first byte and any payload is read back as them, and waited for while it is cut off |
| `WireFormat.WritesClientFrame` | ws_client.cpp:637-663 | what is sent is a final, masked frame in the shortest form, its payload combined with the key as section 5.3 says |
| `WireFormat.MaskedOnTheWire` | ws_client.cpp:654-663 | byte by byte: the four bytes before the payload are the mask, and its i-th byte is combined with mask byte i mod 4 |
| `WireFormat.ReceivesStream` | ws_client.cpp:686-738 | the frames a server sends, the last perhaps cut off, however their bytes are split into reads, make the text, binary and pong events their first bytes call for, up to the first close, and leave the cut-off frame |
| `SendQueue.Taken` | ws_client.cpp:665-682 | the write loop takes no more of the frame than there is |
| `SendQueue.TakenIs` | ws_client.cpp:665-682 | the bytes taken are the sum of the positive answers before the first other one, or all if that sum reaches the end |
| `SendQueue.DrainAll` | ws_client.cpp:740-754 | the drain ends (queue length, then queue length minus retries) and never lengthens the queue |
| `SendQueue.DrainConserves` | ws_client.cpp:740-754 | for every pattern of partial, failed and complete writes, sent and remaining items are the nonempty items there were |
| `SendQueue.DrainFailing` | ws_client.cpp:743-752 | once sendFrame fails for good, whatever part of each frame was taken, rotation ends with the queue in its original order and nothing more sent |
| `SendQueue.FailingLeavesWire` | ws_client.cpp:747-749 | and, if failed writes take nothing, with nothing more on the wire |
| `SendQueue.DrainKeepsOrder` | ws_client.cpp:740-754 | for any writes and any socket, without recovery, sent items then queue are the items in order |
| `SendQueue.DrainSendsLeading` | ws_client.cpp:740-754 | precisely: it sends the items before the first that does not get through, and queues the rest |
| `SendQueue.RecoveryReorders` | ws_client.cpp:747-751 | for any writes, if an item gets through behind one that does not, one of different items is sent before its turn |
| `SendQueue.OrderExactly` | ws_client.cpp:740-754 | for any writes, partial ones included, and any socket: a drain keeps the order of different items if and only if, each tried once in order, none gets through behind one that does not |
| `SendQueue.RecoverySwaps` | ws_client.cpp:747-751 | two items, the first cut off once after none or any part of its bytes, are sent in the other order |
| `SendQueue.WholeExactly` | ws_client.cpp:665-683 | the wire is whole frames after one more frame if and only if none or all of its bytes were taken |
| `SendQueue.FrameDelivers` | ws_client.cpp:630-684 | a clean write of one frame adds exactly its item to what a reader of the wire finds, or nothing |
| `SendQueue.DrainDelivers` | ws_client.cpp:740-754 | what a drain adds to the wire reads back as the items it sent, in order |
| `ClientModel.DrainKeeps` | ws_client.cpp:740-754 | a drain moves items from queue to wire without loss or reordering |
| `ClientModel.ReadKeeps` | ws_client.cpp:438-441 | the pong replies of a read keep out of the data items |
| `ClientModel.RunSteady` | ws_client.cpp:407-500 | whatever the socket does, every run keeps the queue bounded and free of empty items, and the receive side equal to the one-shot reader |
| `ClientModel.NothingLost` | ws_client.cpp:200-243 | whatever the socket does, in every run the items sent and the items queued are the accepted ones |
| `ClientModel.OrderOfRuns` | ws_client.cpp:740-754 | for any writes and in every run: sent items, then queue, are the accepted items in order if no drain recovers, and for different items only then |
| `ClientModel.RunKeeps` | ws_client.cpp:407-500 | with all-or-nothing writes that do not recover within a drain, every run keeps the wire faithful too |
| `ClientModel.EndToEnd` | ws_client.cpp:200-243 | over every interleaving of producers, drains, reads, pings and closing, with no assumption: the queue never exceeds 1024, the events are those of the bytes received read at once, sent and queued items are the accepted ones; for any writes, if no drain recovers, sent items then queue are the accepted items in order; and if moreover writes take all or nothing, the data frames read from the wire, then the queue, are the accepted items in order |
| `Offers.AcceptsOffers` | ws_client.cpp:200-243 | in every run the accepted items are, in order: nonempty audio given while OPEN and below 1024 queued, marked binary, and nonempty text given below 1024 queued, marked text |
| `Offers.OffersReachWire` | ws_client.cpp:200-243 | from call to wire, in every admissible run: the wire is a row of masked frames in the shortest form, and those that start with 0x82 and 0x81, then the queue, are that audio and text in order |
| `Offers.DrainSendsAll` | ws_client.cpp:740-754 | if every item gets through, one drain empties the queue |
| `Offers.FirstAudio` | ws_client.cpp:399-463 | audio sent right after the handshake and drained is one binary frame on the wire |
| `Offers.FirstMessages` | ws_client.cpp:399-441 | what is read right after the handshake has the effects a one-shot reader finds in it |
| `Offers.ControlBytes` | ws_client.cpp:464-476 | a written ping is 0x89 0x80 and the key, a written close 0x88 0x80 and the key |
| `Offers.NothingAfterCleanup` | ws_client.cpp:475-490 | after the cleanup nothing goes out and no audio is accepted, whatever is called |
| `Offers.NothingAfterDisconnect` | ws_client.cpp:172-177 | disconnect() on a live client ends reading and callbacks for data for good, and changes nothing otherwise |
| `Offers.NothingAfterPeerClose` | ws_client.cpp:724-727 | a read is the last one exactly if a close frame is among the bytes then received |
| `Pongs.RepliesAnswer` | ws_client.cpp:729-730 | if every reply adds its pong frame to the wire, the replies to a read add theirs in order |
| `Pongs.PingsAreAnswered` | ws_client.cpp:729-730 | in every run whose pongs are written, the pong frames a reader of the wire finds carry the payloads of the pings received, in order, up to the first close |
| `Pongs.PongsOnTheWire` | ws_client.cpp:729-730 | the same on the bytes: the frames that start with 0x8A carry the payloads of the pings received, in order |
| `WsClient.BuildLength` | ws_client.cpp:642-652 | the three branches give the length field of the specification |
| `WsClient.BuildFrame` | ws_client.cpp:637-663 | the vector holds the encoded frame |
| `WsClient.ReadHeader` | ws_client.cpp:688-706 | header complete exactly if enough bytes are there; size, length and key as announced |
| `WsClient.FrameBounds` | ws_client.cpp:688-708 | goes on exactly if the front of the buffer is a whole frame |
| `WsClient.WebSocketClient.constructor` | ws_client.cpp:162-169 | the state connect() hands to the worker |
| `WsClient.WebSocketClient.WriteFrame` | ws_client.cpp:665-683 | the wire grows by exactly the bytes the socket took |
| `WsClient.WebSocketClient.SendFrame` | ws_client.cpp:630-684 | the wire grows by what was taken of the encoded frame; true exactly if that was all of it |
| `WsClient.WebSocketClient.SendBinary` | ws_client.cpp:200-221 | queued if nonempty, open and below the limit, otherwise nothing changes |
| `WsClient.WebSocketClient.SendMessage` | ws_client.cpp:223-243 | queued if nonempty and below the limit, whatever the state |
| `WsClient.WebSocketClient.DrainSendQueue` | ws_client.cpp:740-754 | queue and wire become those of the specified drain |
| `WsClient.WebSocketClient.Unmask` | ws_client.cpp:712-714 | exactly the payload bytes are combined with the key, in place |
| `WsClient.WebSocketClient.Deliver` | ws_client.cpp:717-734 | the callback or pong of the frame's opcode, and no other effect |
| `WsClient.WebSocketClient.FrontFrame` | ws_client.cpp:688-714 | the frame at the front as the specification reads it; the buffer unchanged behind it, and altogether if no frame is whole |
| `WsClient.WebSocketClient.ProcessOne` | ws_client.cpp:687-736 | one turn of the loop: nothing, the close, or one frame handled and erased |
| `WsClient.WebSocketClient.ProcessFrame` | ws_client.cpp:686-738 | buffer, callbacks, wire, state and running flag become those of the specification |
| `WsClient.WebSocketClient.Read` | ws_client.cpp:438-441 | a read appends and processes, while running |
| `WsClient.WebSocketClient.Ping` | ws_client.cpp:464-472 | an empty ping frame, nothing else |
| `WsClient.WebSocketClient.Disconnect` | ws_client.cpp:172-177 | CLOSING and not running, unless already disconnected or closed |
| `WsClient.WebSocketClient.Cleanup` | ws_client.cpp:475-490 | an empty close frame if the socket is open, then CLOSED; the old state is returned |
| `Worker.ClaimMade` | ws_client.cpp:162-165 | the compare-exchange claims the connection only when nobody else may store the state |
| `Worker.WorkerMade` | ws_client.cpp:167-169 | the claim passes to the new worker |
| `Worker.OpenStepFits` | ws_client.cpp:399-490 | inside the open part every step keeps the worker's callbacks in the grammar and the state OPEN or CLOSING |
| `Worker.ErrorStepFits` | ws_client.cpp:268-397 | during set-up and reporting every step keeps the callbacks in the grammar, and a worker that gave up never stores the state again |
| `Worker.ControlKeeps` | ws_client.cpp:162-192 | every step of connect() and disconnect() keeps the invariant |
| `Worker.WorkerTraces` | ws_client.cpp:259-500 | under every interleaving: every run, finished or not, has made the callbacks of the grammar that belong to its place, and no data without the open callback; a finished one reported an error and a close, or opened, delivered data and closed, with code 1000 exactly if CLOSING was stored while it was open; OPEN only between a run's store of OPEN and its exchange |
| `Reconnect.CarefulNeverEnds` | ws_client.cpp:162-169 | over all runs of any number of threads: if every claiming connect() finds no joinable thread, the program never ends |
| `Reconnect.PendingClaim` | ws_client.cpp:162-169 | a claim made while a thread is joinable, with no join or detach, ends the program exactly when the claiming thread gets to its assignment |
| `Reconnect.EndsExactly` | ws_client.cpp:162-192 | over all runs of any number of threads: the program ends if and only if there is such a claim that gets there |
| `Reconnect.Connecting` | ws_client.cpp:162-170 | the steps of connect() by one of two threads |
| `Reconnect.ReconnectWithoutJoin` | ws_client.cpp:162-169 | connect() after a failed set-up without disconnect() ends the program |
| `Shutdown.RunningStaysClear` | ws_client.cpp:162-177 | after a disconnect() has cleared running_, it stays clear, unless somebody connects anew, if and only if no connect() stands between its exchange and its store of running_ |
| `Shutdown.NeverOpenAgain` | ws_client.cpp:172-177 | after that, OPEN is never there if and only if it is not there now and no store of it is to come: no worker sets up, and no claim can still make one |
| `Shutdown.StaysConnected` | ws_client.cpp:172-192 | after that, no worker enters the loop if and only if no connect() stands there that can still make its worker |
| `Shutdown.DisconnectHonoured` | ws_client.cpp:172-192 | these three, in every run of any number of threads, for every disconnect() that stored CLOSING |
| `Shutdown.StaysConnectable` | ws_client.cpp:172-177 | in every run, a disconnected client, as after a failed set-up, stays so until somebody connects if and only if no disconnect() stands before its store of CLOSING |
| `Shutdown.LostForGood` | ws_client.cpp:162-177 | once that store lands on a disconnected client, no connect() ever claims the connection again |
| `Shutdown.SetupCanBeDisconnected` | ws_client.cpp:172-177 | disconnect() by another thread can store CLOSING while set-up is going on |
| `Shutdown.DisconnectDuringSetup` | ws_client.cpp:399-500 | that CLOSING is overwritten by OPEN, and the run opens, leaves and reports 1006 |
| `Shutdown.LostFromTheStart` | ws_client.cpp:162-192 | a run in which disconnect() has returned and the client is open, running and in its loop |
| `Sessions.OpensAtMostOnce` | ws_client.cpp:399-402 | under every interleaving the open callback is made at most once in the life of a client |
| `Sessions.NeverReconnects` | ws_client.cpp:162-165 | once a run is open, or was, no connect() ever claims the connection again |
| `Sessions.CloseFrameEndsLoop` | ws_client.cpp:724-727 | once a close frame has been handled, no worker is ever in the body of the loop again |
| `Sessions.StateTells` | ws_client.cpp:162-499 | in every run without disconnect(), the state tells exactly where the client is: each of the five states if and only if somebody is at the place it stands for |
| `Sessions.JoinWaitsExactly` | ws_client.cpp:184-192 | disconnect() waits exactly while it has to join another thread that has not finished, and goes on with thread_ empty |
| `Sessions.JoinCanReturn` | ws_client.cpp:184-192 | no deadlock: in every run a disconnect() at its join can still return |
| `Sessions.DisconnectsInOrder` | ws_client.cpp:172-192 | an undisturbed disconnect() of an open client: CLOSING, out of the loop, close with 1000, CLOSED, joined |
| `Playback.Player.constructor` | audio_streamer_glue.cpp:597-609 | an empty queue, nothing counted, no response |
| `Playback.FrameIsTwentyMilliseconds` | audio_streamer_glue.cpp:1044 | a frame is 20 ms of 16-bit mono audio, rounded down, and the buffer 30 seconds |
| `Playback.Player.BufferWrite` | audio_streamer_glue.cpp:400 | a write goes in whole or not at all |
| `Playback.Player.BufferRead` | audio_streamer_glue.cpp:1051 | the oldest bytes come out and the rest stays |
| `Playback.Player.EnqueueAudio` | audio_streamer_glue.cpp:360-405 | the resampled audio, or the original if there is none, is written, and counted by its whole 20 ms frames even if it did not fit; nothing if empty or not enabled |
| `Playback.Player.StreamFrameWrite` | audio_streamer_glue.cpp:1025-1092 | the new queue, the events fired and the contents of the replaced frame, in every branch: the oldest 20 ms of the buffer, at most 4096 bytes, or no change at all if not enabled, paused, cleaned up or locked |
| `Playback.Player.StreamSessionBreak` | audio_streamer_glue.cpp:1095-1118 | everything cleared, queue_completed with 0 |
| `Playback.Ledger` | audio_streamer_glue.cpp:328-332 | in every run, bytes in use minus frame size times chunks remaining is, since the last break: the partial frames of accepted writes, minus the full frames of rejected ones, minus what was read for dropped frames, plus what the 4096-byte read limit leaves of each injected one (nothing for frames up to that size) |
| `Playback.BreakIsolation` | audio_streamer_glue.cpp:1107-1109 | in every run, audio taken out since the last break, then the buffer, is the audio accepted since that break |
| `Playback.EventTrace` | audio_streamer_glue.cpp:1072-1085 | in every run, chunks are numbered 1, 2, ... between completions; a natural completion follows a chunk with none remaining, and only such a one, and reports its number; a break reports 0 |
| `Playback.NoStrandedChunk` | audio_streamer_glue.cpp:1032 | in every run, with nothing rejected or dropped since the last break, counted audio is never skipped by the fast path |
| `Playback.StrandsExactly` | audio_streamer_glue.cpp:1046-1089 | a step strands counted audio if and only if a frame finds less than a frame of audio while the ledger's losses outweigh it by a frame or more |
| `Playback.OneDropStrands` | audio_streamer_glue.cpp:1053-1089 | one dropped frame strands a chunk with no completion fired |
| `Playback.CompletesExactly` | audio_streamer_glue.cpp:1080-1085 | in every run, whatever the writes: an injection fires queue_completed if and only if what is left in the buffer is no more than the ledger's surplus |
| `Playback.CompletesEarlyExactly` | audio_streamer_glue.cpp:1080-1085 | it fires with a whole frame or more left, for the fast path to skip, if and only if that much is left and no more than the surplus |
| `Playback.WholeFramesComplete` | audio_streamer_glue.cpp:1080-1085 | with whole-frame writes, it fires if and only if the injection empties the buffer and nothing was lost since the last break |
| `Playback.HalvesCompleteEarly` | audio_streamer_glue.cpp:1071-1085 | two writes of one and a half frames: completion after two chunks with nothing lost and a whole frame left |
| `Playback.QuietAfterCompletion` | audio_streamer_glue.cpp:1032 | after a completion, frames alone fire and take nothing until more audio comes |
| `Playback.RemainingMissing` | audio_streamer_glue.cpp:1014-1015 | in every run, an injection's event lacks the remaining field if and only if the ledger's surplus exceeds the buffer by a frame or more |
| `Playback.HalvesHideRemaining` | audio_streamer_glue.cpp:1071-1085 | two writes of half a frame, played as one chunk, fire an event without it |
| `Packetizer.Forwarder.constructor` | audio_streamer_glue.cpp:572-592 | an empty buffer of the computed size |
| `Packetizer.Forwarder.FlushIfFull` | audio_streamer_glue.cpp:829-837 | a full buffer, and only that, becomes a pending packet |
| `Packetizer.Forwarder.OnePlainFrame` | audio_streamer_glue.cpp:814-837 | one turn of the loop without a resampler |
| `Packetizer.Forwarder.OneResampledFrame` | audio_streamer_glue.cpp:848-909 | one turn of the loop with a resampler |
| `Packetizer.Forwarder.HandOff` | audio_streamer_glue.cpp:917-921 | every pending packet that is not empty, in order |
| `Packetizer.Forwarder.StreamFrame` | audio_streamer_glue.cpp:777-924 | buffer and packets of the whole invocation, nothing if paused, cleaned up or not ready |
| `Packetizer.Forwarder.StreamFrameResampled` | audio_streamer_glue.cpp:840-924 | the same with a resampler |
| `Packetizer.CallsAreOneLoop` | audio_streamer_glue.cpp:813-838 | how frames are spread over invocations makes no difference |
| `Packetizer.PassThrough` | audio_streamer_glue.cpp:818-821 | with one RTP packet, the packets are the nonempty frames and the buffer is not used |
| `Packetizer.PlainConserves` | audio_streamer_glue.cpp:813-838 | over all invocations, packets then buffer are the accepted frames in order, and every packet is exactly one buffer |
| `Packetizer.UniformFrames` | audio_streamer_glue.cpp:823-837 | frames of one size dividing the buffer are never dropped |
| `Packetizer.UniformJams` | audio_streamer_glue.cpp:823-837 | frames of one size not dividing the buffer never produce a packet |
| `Packetizer.UniformExactly` | audio_streamer_glue.cpp:823-837 | frames of one size are all passed on, however many, if and only if the size divides the buffer |
| `Packetizer.MixedExactly` | audio_streamer_glue.cpp:823-837 | frames of any sizes are all passed on if and only if none crosses a multiple of the buffer size |
| `Packetizer.BufferDivides` | audio_streamer_glue.cpp:572 | for accepted rates the buffer is a positive number of 20 ms frames and of samples of every channel |
| `Packetizer.BufferSamples` | audio_streamer_glue.cpp:572 | the buffer holds rtpPackets times 20 ms of 16-bit samples of every channel |
| `Packetizer.TwentyMilliseconds` | audio_streamer_glue.cpp:742-750 | with 20 ms frames, at every accepted rate and STREAM_BUFFER_SIZE: nothing is lost, every rtpPackets frames make one packet, and the remainder is buffered |
| `Packetizer.ThirtyMilliseconds` | audio_streamer_glue.cpp:742-750 | with 30 ms frames and a buffer of 40 ms nothing is ever sent |
| `Packetizer.ResampledConserves` | audio_streamer_glue.cpp:847-910 | for accepted rates: the room offered is a nonzero number of samples and exactly the free space whenever a frame comes, all the resampler emits then fits, packets then buffer are everything it emitted in order, and packets are one buffer each |
| `Packetizer.RoomIsFreeSpace` | audio_streamer_glue.cpp:853-854 | the room offered to the resampler is the free space, rounded down to samples |
| `Packetizer.FillingCompletes` | audio_streamer_glue.cpp:847-910 | at every accepted rate, a resampler that fills the room it is given makes one packet of the whole buffer of every media frame |
| `Lifetime.StepKeeps` | audio_streamer_glue.cpp:960-999 | every step of senders, cleanups and the worker keeps: a reference for the wrapper and for each copy, the wrapper there while the pointer or the cleanup has it, and the worker over once another thread has disconnected |
| `Lifetime.NoWait` | audio_streamer_glue.cpp:37 | whoever drops the last copy finds the cleanup's disconnect() done, so the destructor's never waits for the worker |
| `Lifetime.SafeLifetime` | audio_streamer_glue.cpp:648-999 | under every interleaving: no thread uses wrapper or copy after it is freed; the wrapper is deleted and the streamer destroyed at most once, never while a sender, the cleanup or a callback holds a copy; destruction comes with the last reference and is the second disconnect; the worker uses the client after it only if the cleanup was its own |
| `Lifetime.NothingLeft` | audio_streamer_glue.cpp:950-1003 | once a cleanup has started, nobody is inside and the worker is over, the streamer has been destroyed after exactly two disconnects |
| `Teardown.TeardownCompletes` | audio_streamer_glue.cpp:938-1003 | no deadlock: from every state of every run in which a cleanup has started, all threads and the worker can still get out, the streamer being destroyed once after two disconnects |
| `Teardown.SenderIsLast` | audio_streamer_glue.cpp:911-924 | a sender with a copy outlives the whole cleanup and is the one that destroys the streamer |
| `Lifetime.LateExactly` | ws_client.cpp:268-273 | in any state of any run, the worker can come to use the client after its destruction if and only if it has, or the cleanup is its own and it is not over, or no cleanup has started and its set-up may still fail into one |
| `Lifetime.CleanupInCallback` | audio_streamer_glue.cpp:271-276 | a failed set-up whose error callback runs the cleanup |
| `Lifetime.WorkerIsLate` | ws_client.cpp:268-273 | that callback drops the last copy, and the worker then tests onClose_ of a destroyed client |
| `Base64.PosOfChar` | base64.cpp:55-71 | a position below 64, or the invalid-data error |
| `Base64.TableHas` | base64.cpp:44-53 | the reader inverts each alphabet on exactly its own characters |
| `Base64.DecodeEncode` | base64.cpp:133-156 | decoding an encoding gives the bytes back |
| `Base64.DecodeUnpaddedEncode` | base64.cpp:214-228 | also with the trailing padding cut off |
| `Base64.CanonicalExactly` | base64.cpp:163-241 | a text comes back from decode and encode if and only if it is canonical in the sense of section 3.5 of RFC 4648 |
| `Base64.RoundTrips` | base64.cpp:111-241 | these three for both alphabets |
| `EncodedText.TextOf` | base64.cpp:133-153 | the text group by group: the bits of three bytes in a row, zeros for those missing, are the bits of four sextets in a row, spelled out in the ASCII codes of the alphabet with an equal sign, or a dot behind the URL alphabet, for each byte missing |
| `Base64.DecodesExactly` | base64.cpp:193-238 | decode throws if and only if a chunk has a single character or a character is not acceptable at its place |
| `EncodedText.DecodeErrors` | base64.cpp:193-238 | and throws std::out_of_range exactly if a single character is left over behind chunks that decode |
| `Base64.MaskedSextets` | base64.cpp:134-150 | the per-byte masks pick the sextets of the 24-bit group |
| `Base64.Base64Encode` | base64.cpp:111-160 | the loop writes the regrouped text of section 4 of RFC 4648 |
| `Base64.WrappedPosAdvances` | base64.cpp:131-155 | the 32-bit position of the k-th turn starts at 0 and advances by 3 with wrap-around |
| `Base64.EncodeEndsExactly` | base64.cpp:131-155 | the loop's guard fails after some number of turns if and only if there are fewer than 2^32 bytes |
| `Base64.DecodeChunk` | base64.cpp:207-235 | one chunk read in place, with its error if it has one |
| `Base64.Base64Decode` | base64.cpp:163-241 | the specified decoding, line feeds removed first if asked |
| `LineBreaks.InsertLinebreaksInPlace` | base64.cpp:73-89 | the in-place insertions cut the text into lines |
| `LineBreaks.RemoveInserted` | base64.cpp:171-178 | removing line feeds undoes the insertions |
| `LineBreaks.LineLengths` | base64.cpp:81-86 | every line but the last is full, the last is neither empty nor longer, and together they are the text |
| `LineBreaks.EncodeWithLineBreaks` | base64.cpp:91-104 | the PEM and MIME encoders, for any line length |
| `LineBreaks.LineBrokenRoundTrip` | base64.cpp:91-104 | line-broken text decodes to the input and its lines are of the right lengths |
| `LineBreaks.Base64EncodePem` | base64.cpp:251-253 | lines of 64 characters that decode to the input |
| `LineBreaks.Base64EncodeMime` | base64.cpp:255-257 | lines of 76 characters that decode to the input |
| `KeyEncoders.RandomBase64` | ws_client.cpp:73-92 | on any drawn bytes, the text base64_encode gives; for the 16 of a key, 24 characters with two pads |
| `KeyEncoders.DigestBase64` | ws_client.cpp:45-60 | on any digest of 20 bytes, the text base64_encode gives: 28 characters with one pad |
| `Utf8.LeadSound` | stream_utils.cpp:49-77 | what a turn of the loop accepts is the encoding of a scalar value, of the length it skips |
| `Utf8.LeadComplete` | stream_utils.cpp:49-77 | the encoding of every scalar value is accepted as that value |
| `Utf8.Unique` | stream_utils.cpp:47-80 | the scalar values of a string are unique |
| `Utf8.SequenceLength` | stream_utils.cpp:49-77 | the branches advance by the length of the sequence, or return 0, reading no further than the terminator |
| `Utf8.IsValidUtf8` | stream_utils.cpp:47-80 | true if and only if the string is the encoding of some nonzero scalar values; no read past the terminator |
| `Utf8Syntax.LeadIsSyntax` | stream_utils.cpp:49-77 | a turn of the loop accepts exactly a sequence of the syntax of section 4 of RFC 3629, octet by octet |
| `Utf8Syntax.IsSyntactic` | stream_utils.cpp:47-80 | the strings accepted are exactly the rows of such sequences |
| `WsUri.ScanHost` | stream_utils.cpp:20-26 | the scan ends at the first colon, slash or terminator, and fails exactly on a bad host character before it |
| `WsUri.ScanPort` | stream_utils.cpp:33-39 | fails exactly on a character before the slash that is no digit |
| `WsUri.PartsUnique` | stream_utils.cpp:12-40 | a well-formed URI has only one reading, the one scanned |
| `WsUri.AcceptsHost` | stream_utils.cpp:12-30 | a scheme and a bare name is accepted exactly if the name is not empty and of letters, digits, hyphens, dots and underscores, by their ASCII codes |
| `WsUri.ValidateWsUri` | stream_utils.cpp:7-45 | accepts exactly the well-formed URIs; then the buffer holds what fits, zero-filled and terminated, and otherwise is untouched |
| `WsUri.CopyIsWhole` | stream_utils.cpp:42-43 | the buffer holds the whole URI if and only if it is shorter than the buffer |
| `WsUri.AtoiReads` | ws_client.cpp:134 | a digit run that ends in a path or the end is read as its value, if that fits an int |
| `WsUri.LocatesPort` | ws_client.cpp:130-134 | a port that fits an int, given in decimal, is the port stored, with the host and the path, or "/" for none |
| `WsUri.Endpoint.SetUrl` | ws_client.cpp:112-146 | host, port, path and TLS flag as located; another scheme changes only the stored URL |
| `WsUri.LocateParts` | ws_client.cpp:126-145 | the splitter finds the parts the check found |
| `WsUri.UriAgreement` | ws_client.cpp:112-146 | for every accepted URI shorter than the buffer: scheme, host, optional colon and digits, and path recompose to it, and setUrl makes of it that host, the digits' value, or 443 for wss and 80 for ws, and that path or "/" |

## Left out

- ClientModel.EndToEnd: the order on the wire is claimed for all-or-nothing writes, because the code sends a failed frame again from its start; for any other writes the order claimed is that of the items sendFrame reports as sent, and `SendQueue.WholeExactly` says when the wire stays readable. Payloads are no longer than a vector can be.
- WsClient.WebSocketClient.WriteFrame: write counts are unbounded; the casts of a count to `int`, which could only matter for a frame of 2^31 bytes or more, are not modelled.
- ClientModel.EndToEnd: the operations are atomic steps; `sendBinary` loads the state before it takes the mutex, and a disconnect in between is the same as one after it.
- Offers.NothingAfterDisconnect: a turn of the poll loop is one step with its test of `running_`; a turn that has tested it before the disconnect may still read once.
- WsClient.FrameBounds: an announced length near 2^64, whose top bit section 5.2 of RFC 6455 forbids, makes the `size_t` sum wrap; the model treats the frame as not whole and says nothing about what the code then reads.
- Base64.Base64Encode: inputs below 2^32 bytes, because from there on the loop does not end (`Base64.EncodeEndsExactly`).
- WsUri.UriAgreement: for a port that does not fit an int, `atoi` is undefined; the model takes any value for it.
- Packetizer.ResampledConserves: positive rates divisible by 8000 and a resampler that emits whole samples and no more than it is given room for; how much input the resampler consumes is not modelled, so input it leaves unread is lost without a claim.
- Packetizer.Forwarder.StreamFrame: packets made while the connection is not open are discarded; the claims are about packets made.
- Playback.Player.EnqueueAudio: a native rate below 25, for which the frame size is zero, is excluded, and counters are unbounded integers.
- Sockets, DNS, poll, TLS, the text of the HTTP upgrade, SHA-1 and random numbers: foreign calls; their results are inputs.
- Worker liveness: that a join or a poll returns. The condition variable and the closing of sockets are not modelled.
- Data races on bit-fields and on callbacks being cleared: field accesses are atomic steps, callbacks stay set.
- Reassembly of fragmented messages and compression: the code ignores them, and so does the event function.
- Lifetime.SafeLifetime: the mutex outlives all steps, there is one worker, and `stream_session_destroy`, which takes the wrapper without the mutex when the media bug cannot be added, is not modelled.
- JSON parsing, channel variables, event firing, logging and command dispatch: shallow branches with no state of their own.
- Class fields that are growing buffers are `seq` values that the methods reassign; capacity growth of vectors and aliasing of the buffer pointer are not modelled.

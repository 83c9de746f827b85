# Verified model of loom-host

loom-host is a remote-display host: it captures a screen, encodes it as HEVC, cuts every frame into datagrams and
steers the stream over a reliable control stream. This project models five connected parts of it in Dafny and proves
what they promise over whole runs.

1. **Loss recovery.** The media loop drains its channels, encodes and fragments (`MediaLoop`, `Datagram`); the network
   loses, repeats and reorders datagrams; the client decodes, filters and reassembles them in a two-frame window with
   decode gating and a 250 ms keyframe-request limiter (`Reassembly`). `ReassemblyRuns` holds the invariant: every
   frame that has left the window is at or below the newest completed frame, or the window is full of newer frames.
   `ReassemblySafety`, `ReassemblyRequests`, `ReassemblyEvidence` and `ReassemblyRecovery` read the promises off it;
   `ReassemblyEntries` and `ReassemblyOvertaking` say exactly how far a frame may be overtaken, and `LossRecovery` joins
   host and client end to end. `MediaLoopRuns`, `MediaKeyframes`, `MediaFirstOutput` and `MediaDelay` say which frames
   are keyframes, for encoders that answer at once, that drop and that delay, and `MediaSizes` at which size a pipeline
   runs; `FreezeLoop` closes the loop from a gap at the client through the session to the keyframe.
2. **The session.** The host state machine and its outputs (`Session`), every trace of it (`SessionTrace`,
   `SessionLimits`, `SessionFeatures`), the driver that applies outputs to the wire and to the media pipelines
   (`Connection`, `ConnectionRuns`, `ConnectionEffects`, `ReplySizes`), the host composed with a conforming client over
   two FIFO queues (`SessionPeers`), what that composition can still reach (`SessionProgress`, `SessionReach`), and both
   safety and progress over the byte streams of a connection (`ConnectionPeers`). `ClientView` states the protocol by
   its numbers, as a peer sees it.
3. **Canonical CBOR and control framing.** The recursive encoder with shortest heads and bytewise-sorted maps
   (section 4.2.1 of RFC 8949) in `Cbor`, its order theory in `CborOrder`, a reference decoder in `CborReading`, unique
   readability and order independence in `CborCanonical`, the exact limit of that in `CborRepeats`, truncation in
   `CborTruncation`; frames and the read loop in `Control`, whole streams in `ControlStream`; `SessionTransport` shows
   that the session cannot tell a transported message from the one sent. `WireVectors` fixes the exact bytes.
4. **The Annex B translator** and the start-code scanner that inverts it (`AnnexB`).
5. **Arithmetic and in-place buffers.** The clock filter (`ClockSync`), one exchange across all components
   (`ClockExchange`), strided planes (`Planes`), packed RGB to I420 (`Convert`), and NV12 to I420 and back (`Nv12`).

Code that updates state in place is modelled as a class or a method with loops, proved equal to a specification
function; the promises are lemmas about that function over all inputs and all runs. `dafny verify dfyconfig.toml`
checks everything.

## Preconditions

- A frame body has at most 65535 * 1338 bytes. `Datagram.DecodesIffCountFits` shows that this is exact: for every
  longer body the 16-bit cast of the fragment count makes the receiver drop some datagrams.
- A media run sends at most 2^32 frames where frame numbers are compared end to end (`LossRecovery.WellSent`). The
  media loop itself is modelled with the wrapping counter.
- CBOR integers lie in -2^64 .. 2^64 - 1, lengths below 2^64, and floats carry the bytes of one of the three widths.
  `CborCanonical.IntegerReadsBackIff` shows that the integer range is exact and what the casts do outside it.
- A control body encodes to at most 65536 bytes; `ControlStream.FrameRoundTrip` says what happens above that, at any
  length.
- That every reply reaches the client asks for a small enough host name, session id and list of extra streams
  (`ReplySizes.ConfigSmall`): the source puts no bound on them, and an over-long frame is refused by its reader.
  `ConnectionPeers` asks the same of what a conforming client says.
- Session generations and clock values are unbounded integers, so overflow of the 64-bit counters is outside.
- Image buffers hold the rows their dimensions and strides promise (`Planes.Fits`), as slice indexing demands.

## Where code and documentation disagree

The model follows the code.

- HELLO key 3 is documented as the ceiling a VIEWPORT is clamped to (loomd/src/session.rs:362-363), and `clamp_viewport`
  as flooring at 640 as well (loomd/src/session.rs:337-338). The two meet where a client offers less than 640, and there
  the floor wins: `SessionLimits.LimitsHoldIff` shows that every size after the first stays within the client's limits, in
  every continuation of the session, exactly when both limits are at least 640, or nothing but the first size, 640 x 640, is
  left to choose; `SessionTrace.SmallClientGetsFloor` is a session that exceeds them. The first CONFIG carries the
  configured size without any clamping.
- An IDR request is described as forcing the next frame to an IDR (loomd/src/media/mod.rs:7-8). With an encoder that may
  drop the picture of a call (loom-encode/src/videotoolbox.rs:444-446) it can be lost: `MediaFirstOutput.HonouredIffKept`
  is the exact condition where the first output of an encoder is always an IDR, `MediaKeyframes.HonouredIffFewSkips`
  where the encoder's first picture counts as its first even when it is dropped, both from every reachable state, and
  `MediaKeyframes.SkippedFrameLosesRequest` is a run of a fresh pipeline.
- A new size is described as forcing the next frame to an IDR too (loomd/src/media/mod.rs:304-307). It does, whatever is
  dropped, where the first output of an encoder is always an IDR: `MediaFirstOutput.NewSizeIsNeverLost`. Only an encoder
  that drops pictures and decides by counting calls, as loom-encode/src/lib.rs:203-208 counts them, would lose it:
  `MediaKeyframes.SkippedFrameLosesNewSize`. None in the repository is known to do both.
- An encoder that only delays its pictures (loom-encode/src/lib.rs:223-225) loses nothing:
  `MediaDelay.HonouredWithinDelay` bounds the wait by its delay.
- IDR requests and a new size are described as coalesced into one forced IDR (loomd/src/media/mod.rs:327-328). A new
  size short-circuits the drain of the IDR channel (loomd/src/media/mod.rs:329): `MediaKeyframes.CoalescesIff` shows
  that there is a second keyframe exactly when the tick that takes in the new size sends its frame with a request
  waiting behind it, and the call after it is not skipped. `MediaKeyframes.NewSizeKeepsRequest` is such a run of a fresh
  pipeline; `MediaKeyframes.ReopenedCaptureCoalesces` is one that does coalesce, because a damage-driven capture has no
  frame to encode right after reopening.
- The order of map entries is documented as irrelevant (loom-proto/src/cbor.rs:30). That holds exactly for values in
  which no map gives one key two different values: `CborRepeats.OrderIsIrrelevantIff`, with an instance of the failure
  in `CborRepeats.RepeatedKeyShows`.

## Model

| member | source | states |
|---|---|---|
| Reassembly.Reassembler.Push | loom-proto/src/reassembly.rs:115-179 | one arrival turns the machine's fields and history into exactly the specified next state, so the fields always equal the run of everything pushed |
| Reassembly.Reassembler.Enter | loom-proto/src/reassembly.rs:118-145 | stale fragments are counted; otherwise the frame has a window entry, evicting the oldest of two only for a newer frame |
| Reassembly.Reassembler.Leave | loom-proto/src/reassembly.rs:153-168 | a completed frame leaves the window and takes every frame at or below it along |
| Reassembly.Reassembler.DropStale | loom-proto/src/reassembly.rs:159-168 | the collect-then-remove loop removes exactly the stale frames and counts each once |
| Reassembly.Reassembler.GateDecode | loom-proto/src/reassembly.rs:170-178 | a keyframe or the successor of the last decoded frame is delivered, anything else is a counted gap with a request |
| Reassembly.Reassembler.RequestIdr | loom-proto/src/reassembly.rs:190-205 | at most one request per 250 ms, naming the last decoded frame |
| ReassemblyRuns.StepKeeps | loom-proto/src/reassembly.rs:115-205 | every arrival keeps the invariant: window bound, log well-formedness, one place per frame, counters equal to fates |
| ReassemblyRuns.Reachable | loom-proto/src/reassembly.rs:92-179 | the invariant holds after every trace of arrivals |
| ReassemblySafety.Conservation | loom-proto/src/reassembly.rs:118-178 | admitted frames are distinct and equal delivered + gap discards + incomplete drops + frames still in the window |
| ReassemblySafety.FatesAreFinal | loom-proto/src/reassembly.rs:118-178 | no later arrival changes a frame's fate or takes back an event |
| ReassemblySafety.DeadStaysDead | loom-proto/src/reassembly.rs:118-145 | a frame that has met its fate is never admitted again |
| ReassemblySafety.StaleIsCounted | loom-proto/src/reassembly.rs:118-135 | over every trace, the stale counter is the number of fragments at or below the newest completed frame or below a full window |
| ReassemblySafety.NeverUndecodable | loom-proto/src/reassembly.rs:153-188 | deliveries strictly increase and every delta frame directly follows its reference |
| ReassemblySafety.DecodeChain | loom-proto/src/reassembly.rs:153-188 | every delivered frame n has a delivered keyframe k with exactly k, ..., n delivered from there |
| ReassemblySafety.GapThenKeyframe | loom-proto/src/reassembly.rs:170-188 | after a gap discard the next delivery, if any, is a keyframe |
| ReassemblyRequests.RequestsAreSpaced | loom-proto/src/reassembly.rs:190-205 | n requests span at least 250 (n - 1) ms for arbitrary clock values |
| ReassemblyRequests.LastGoodIsLatest | loom-proto/src/reassembly.rs:199-203 | each request names the latest frame delivered before it, or 0 |
| ReassemblyRequests.StuckClientKeepsAsking | loom-proto/src/reassembly.rs:170-205 | with non-decreasing times, every gap discard at t has a request in (t - 250, t] |
| ReassemblyEvidence.FullIsWhole | loom-proto/src/reassembly.rs:147-151 | a full entry with indices in range holds every index (pigeonhole) |
| ReassemblyEvidence.DeliveredIsWhole | loom-proto/src/reassembly.rs:147-188 | a delivered frame has had all its fragments arrive and carries the sent keyframe flag |
| ReassemblyRecovery.CoveredFrameCompletes | loom-proto/src/reassembly.rs:118-168 | a frame newer than everything seen completes once all its fragments are in, whatever older fragments intervene |
| ReassemblyRecovery.KeyframeRecovers | loom-proto/src/reassembly.rs:124-173 | from every reachable state such a keyframe is delivered and becomes the decoder's reference |
| ReassemblyRecovery.StreamFlows | loom-proto/src/reassembly.rs:115-188 | loss-free frames after it are all delivered in order with no drop, discard or request |
| ReassemblyRecovery.RecoveryThenFlow | loom-proto/src/reassembly.rs:115-188 | both together, from every reachable state |
| ReassemblyOvertaking.CompletesIff | loom-proto/src/reassembly.rs:115-168 | for every trace and frame: it completes if and only if at some moment its own fragments finish it and, up to then, at most one newer frame has arrived and is not finished |
| ReassemblyOvertaking.KeyframeArrivesIff | loom-proto/src/reassembly.rs:115-173 | a keyframe is decoded if and only if its last missing fragment comes in while at most one newer frame has arrived, unfinished |
| ReassemblyOvertaking.OvertakenKeyframeRecovers | loom-proto/src/reassembly.rs:124-173 | a keyframe whose fragments all arrive is decoded even among fragments of one newer, unfinished frame, before, between or after them |
| ReassemblyOvertaking.TwoNewerEvict | loom-proto/src/reassembly.rs:124-131 | the second newer frame to open evicts it, for good |
| Datagram.WriteHeader | loom-proto/src/datagram.rs:75-84 | the in-place writes produce the big-endian header layout |
| Datagram.Fragment | loom-proto/src/datagram.rs:108-125 | the loop produces exactly the specified datagrams, for a body of any length |
| Datagram.PayloadsAreBody | loom-proto/src/datagram.rs:108-125 | the payloads concatenate to the body and no datagram exceeds 1350 bytes |
| Datagram.CountIsMinimal | loom-proto/src/datagram.rs:104-109 | no other way to cut the body into payloads that fit uses fewer datagrams |
| Datagram.DecodeEncoded | loom-proto/src/datagram.rs:44-92 | what the decoder makes of every datagram built from a header and a payload, for every payload length and stream: accepted, or dropped for which reason |
| Datagram.StreamsByNumber | loom-proto/src/datagram.rs:216-219 | streams 0, 1 and the negotiated ones are accepted, every other is dropped as unknown |
| Datagram.DecodesRawBytes | loom-proto/src/datagram.rs:188-232 | the decoder on raw bytes with magic 0x4C: where each field and flag bit is, and every check in order |
| Datagram.DropsRawBytes | loom-proto/src/datagram.rs:192-200 | fewer than 12 bytes, more than 1350, or another first byte |
| Datagram.DecodesIffCountFits | loom-proto/src/datagram.rs:108-125 | every datagram of a frame decodes to its own indices and flags exactly when the count fits 16 bits; otherwise some are dropped |
| Datagram.AcceptedIffWellFormed | loom-proto/src/datagram.rs:188-232 | the decoder accepts exactly the byte strings that a well-formed header of a known stream, any reserved flag bits and a fitting payload produce |
| Datagram.Reserializes | loom-proto/src/datagram.rs:188-232 | an accepted datagram's header re-serializes to its first 12 bytes, reserved flag bits cleared |
| MediaLoop.Pipeline.Tick | loomd/src/media/mod.rs:299-417 | one iteration of the media loop, with all its early exits, equals the specified tick |
| MediaLoop.Pipeline.DrainChannels | loomd/src/media/mod.rs:308-329 | newest size wins and forces an IDR; pending IDR requests coalesce, but stay queued when there was a new size |
| MediaLoop.Pipeline.SendFrame | loomd/src/media/mod.rs:388-407 | the datagrams that pass the injector and the transport, in order, and the wrapping frame number |
| MediaSizes.NewestSizeWins | loomd/src/media/mod.rs:304-325 | over every run, a pipeline still running runs at the last of all the sizes its ticks have found, or at the one it was opened with |
| MediaSizes.StopsIff | loomd/src/media/mod.rs:299-410 | a tick stops the pipeline exactly for a closed connection, a failed reopening or a failed encoder |
| MediaSizes.PrimaryRunsAtSessionSize | loomd/src/conn.rs:221-228 | session, driver and pipeline: with nothing pending, a primary pipeline that has drained its channel runs at the session's size |
| MediaLoopRuns.ForcedIff | loomd/src/media/mod.rs:327-329 | the picture is forced exactly when the tick took in a new size or found a request, and only a new size leaves requests waiting |
| MediaLoopRuns.WhatPasses | loomd/src/media/mod.rs:394-403 | the datagrams handed over are, in order, exactly those not dropped by the injector and not at or behind a refusal |
| MediaLoopRuns.FramesAreConsecutive | loomd/src/media/mod.rs:282-407 | frame numbers are 0, 1, 2, ... modulo 2^32 across reconfigurations, and a source without a frame has an unused encoder |
| MediaLoopRuns.RequestIsHonoured | loomd/src/media/mod.rs:299-417 | with a one-in-one-out encoder the next frame sent after an IDR request or a new size is a keyframe, from every state |
| MediaLoopRuns.NoUnaskedKeyframes | loomd/src/media/mod.rs:327-377 | without a request or a new size a running encoder sends delta frames only |
| MediaKeyframes.HonouredIffFewSkips | loomd/src/media/mod.rs:304-410 | with an encoder that may skip, from every reachable state in which a keyframe is owed or asked for, the next frame is a keyframe if and only if fewer calls are skipped than are forced |
| MediaKeyframes.NextFrameKind | loomd/src/media/mod.rs:327-410 | with nothing asked, the next frame is a keyframe if and only if one is owed and no call is skipped before it |
| MediaKeyframes.CoalescesIff | loomd/src/media/mod.rs:304-329 | whatever one tick takes in, the frame after the next is a keyframe if and only if that tick itself sent a frame at a new size with a request waiting behind it and the call is not skipped; later frames are deltas |
| MediaKeyframes.SkippedFrameLosesRequest | loomd/src/media/mod.rs:329-410 | a run of a fresh pipeline in which a request is lost to a skipped call |
| MediaKeyframes.SkippedFrameLosesNewSize | loomd/src/media/mod.rs:304-410 | a run of a fresh pipeline, with an encoder that drops a picture and yet counts it as its first, whose first frame at a new size is a delta frame |
| MediaKeyframes.NewSizeKeepsRequest | loomd/src/media/mod.rs:308-329 | a run of a fresh pipeline in which a request beside a new size yields two keyframes |
| MediaKeyframes.ReopenedCaptureCoalesces | loomd/src/media/mod.rs:308-337 | a run of a fresh damage-driven pipeline in which a request beside a new size is answered by one keyframe |
| MediaFirstOutput.NewSizeIsNeverLost | loomd/src/media/mod.rs:304-410 | where the first output of an encoder is a keyframe, the first frame sent from a tick with a new size is one, whatever is dropped and asked in between |
| MediaFirstOutput.HonouredIffKept | loomd/src/media/mod.rs:304-410 | with such an encoder, from every reachable state, the next frame after a request or a new size is a keyframe if and only if the encoder has put nothing out yet or drops no picture before it |
| MediaDelay.HonouredWithinDelay | loomd/src/media/mod.rs:299-417 | with an encoder that delays at most d pictures, one of the next d + 1 frames after a request or a new size is a keyframe, after any history and whatever else is asked |
| MediaDelay.NoDelayIsOneInOneOut | loomd/src/media/mod.rs:363-380 | an encoder without delay is exactly one that answers every call honestly with a picture |
| MediaLoopRuns.FirstFrameIsKey | loom-encode/src/lib.rs:203-208 | the first frame of a pipeline is a keyframe |
| MediaLoopRuns.WireIsFragments | loomd/src/media/mod.rs:392-403 | whatever is dropped or refused, every datagram on the wire is a fragment of a sent frame |
| MediaLoopRuns.CleanFrameIsWhole | loomd/src/media/mod.rs:387-407 | a frame nobody interferes with is on the wire whole, with the specified body |
| MediaLoopRuns.BodyReadsBack | loomd/src/media/mod.rs:387-390 | the receiver of a body gets back the capture time and the access unit |
| LossRecovery.Receive | loomd/tests/recovery.rs:137-157 | the client's receive loop pushes exactly the accepted fragments of its stream, in order |
| LossRecovery.EndToEnd | loom-proto/src/reassembly.rs:115-188 | under any loss, repetition and reordering, deliveries increase, follow their reference, are sent frames with their flag, and every datagram of each has arrived |
| LossRecovery.HostToClient | loomd/src/media/mod.rs:299-417 | the same from any media run's own wire, mixed with packets the client ignores |
| LossRecovery.HostToExtraDisplay | loomd/tests/multi_display.rs:158-178 | the end-to-end safety for a stream of which only is known that it was negotiated |
| LossRecovery.ExtraDisplayRecovers | loom-proto/src/datagram.rs:216-219 | and a keyframe of such a stream is decoded once its datagrams are in |
| LossRecovery.KeyframeEndsFreeze | loom-proto/src/reassembly.rs:124-173 | after any history, a keyframe whose datagrams are all in, among older ones, is decoded |
| LossRecovery.RequestEndsFreeze | loomd/src/media/mod.rs:327-407 | after any history, the frame sent after an IDR request, once its datagrams are in, is decoded again |
| FreezeLoop.OneMoreRequest | loomd/src/conn.rs:215-221 | a client's keyframe request, through control stream, session and driver, is one more entry in the channel of its stream's pipeline |
| FreezeLoop.GapIsHealed | loomd/src/media/mod.rs:299-417 | one run of the whole system: the logged request is found by a tick; with an encoder that delays at most d pictures one of the next d + 1 frames sent is a keyframe, and with the datagrams of the first one in the client decodes from it |
| Cbor.EncodeHead | loom-proto/src/cbor.rs:97-114 | appends the head in the specified width |
| WireVectors.HeadBytes | loom-proto/src/cbor.rs:96-114 | the bytes of every head, for every major type and 64-bit argument |
| WireVectors.MajorTypes | loom-proto/src/cbor.rs:71-124 | integers, byte strings and texts have major types 0 to 3 |
| Cbor.EncodeMap | loom-proto/src/cbor.rs:128-145 | appends the head and the stably sorted pairs |
| WireVectors.SimpleVectors | loom-proto/src/cbor.rs:89-92 | booleans, null and floats of the three widths in exact bytes |
| WireVectors.ArrayVector | loom-proto/src/cbor.rs:79-84 | arrays in exact bytes |
| WireVectors.MapVector | loom-proto/src/cbor.rs:126-145 | a map given in the wrong order, in exact bytes |
| Cbor.ToCanonical | loom-proto/src/cbor.rs:65-93 | the recursive appending encoder produces the specified bytes for every value |
| CborOrder.HeadOrder | loom-proto/src/cbor.rs:97-114 | bytewise order of heads of one major type is numeric order of the argument, across all five widths |
| CborOrder.MapIsSorted | loom-proto/src/cbor.rs:126-145 | emitted map keys are bytewise sorted |
| CborOrder.SortForgetsOrder | loom-proto/src/cbor.rs:126-145 | where no key has two values the sorted pairs do not depend on the order of the entries |
| CborReading.RoundTrip | loom-proto/src/cbor.rs:71-202 | every value in range reads back from its encoding, followed by anything, as its canonical form |
| CborCanonical.HeadIsShortest | loom-proto/src/cbor.rs:96-114 | no head the decoder accepts for the same argument is shorter |
| CborCanonical.UniquelyReadable | loom-proto/src/cbor.rs:71-145 | encode(v) + x = encode(w) + y implies x = y and v, w equal up to the order of map entries |
| CborCanonical.OrderIsIrrelevant | loom-proto/src/cbor.rs:126-145 | reordering map entries, at any depth, leaves the bytes unchanged where no key has two values |
| CborCanonical.DistinctKeysAgree | loom-proto/src/cbor.rs:126-145 | values whose maps have distinct keys are among those |
| CborCanonical.CanonicalForm | loom-proto/src/cbor.rs:71-145 | for such values, equal bytes if and only if equal up to entry order |
| CborRepeats.SortUnder | loom-proto/src/cbor.rs:139 | the sort keeps the order of the values under every key |
| CborRepeats.OrderIsIrrelevantIff | loom-proto/src/cbor.rs:29-31 | every reordering, at any depth, leaves the bytes unchanged if and only if no map gives one key two different values |
| CborCanonical.IntegerReadsBackIff | loom-proto/src/cbor.rs:116-124 | an integer reads back as itself if and only if it is in range; every other reads back as its 64-bit wrap |
| CborRepeats.RepeatedKeyShows | loom-proto/src/cbor.rs:139-145 | a concrete map whose entry order shows in the bytes |
| Control.EncodeFrame | loom-proto/src/control.rs:99-109 | length prefix, with the 32-bit cast, and canonical envelope |
| WireVectors.AckFrame | loom-proto/src/control.rs:162-167 | the acknowledgement of generation 1, byte for byte |
| WireVectors.TypeNumbers | loom-proto/src/control.rs:18-53 | the number of every message type, as it appears in a frame |
| WireVectors.RegisteredKeys | loom-proto/src/control.rs:58-83 | which types are registered and how many keys each has |
| Control.DecodeFrame | loom-proto/src/control.rs:113-152 | each refusal, the ignored types and the filtered body, as specified |
| Control.RecvStream.ReadFrame | loomd/src/conn.rs:298-316 | one frame, a clean end between frames, or a failure, and what is left unread |
| WireVectors.WhichFramesAreMessages | loom-proto/src/control.rs:113-154 | a frame holding any encodable value, with anything behind the value: a pair of a type number and a map is its message, everything else is refused |
| WireVectors.LengthFieldLimit | loomd/src/conn.rs:298-316 | four bytes of length, most significant first, at most 65536: over it, short of it, and the frame that is taken |
| CborTruncation.NoProperPrefix | loom-proto/src/cbor.rs:173-179 | no proper prefix of a canonical encoding decodes, so truncation is always noticed |
| ControlStream.FrameRoundTrip | loom-proto/src/control.rs:99-152 | a frame decodes to its message if and only if the body is within the limit, else it is a violation, wrapped length fields included |
| ControlStream.ReceivedBody | loom-proto/src/control.rs:140-151 | the received body holds exactly the entries with registered keys, with multiplicity, sorted by key |
| ControlStream.CanonicalBodySurvives | loom-proto/src/control.rs:99-152 | a canonical body of registered keys arrives unchanged |
| ControlStream.StreamSurvives | loomd/src/conn.rs:298-316 | any list of messages, framed and concatenated, is read back in order with a clean end |
| ControlStream.CutShows | loomd/src/conn.rs:292-318 | a stream cut anywhere: all whole frames are read, and the end is clean if and only if it falls between two frames |
| SessionTransport.LookupsSurvive | loom-proto/src/control.rs:140-151 | a lookup under a registered key sees the same in the received body, repeated keys included |
| SessionTransport.TransportIsTransparent | loomd/src/session.rs:248-335 | the session does the same on a transported message as on the message sent |
| SessionTransport.StreamIsTransparent | loomd/src/conn.rs:140-175 | and so over whole message streams: same states, same outputs |
| Session.HostSession.Handle | loomd/src/session.rs:248-275 | one decoded frame changes the fields and yields the outputs exactly as specified, in every phase |
| Session.HostSession.HandleHello | loomd/src/session.rs:348-388 | the handshake, its two failures, the client limits and the multi-display decision |
| Session.HostSession.HandleViewport | loomd/src/session.rs:299-321 | malformed, unchanged or in-flight requests are ignored; otherwise a new generation with the clamped size |
| SessionTrace.ConfigurationsAlternate | loomd/src/session.rs:248-345 | over every input sequence CONFIGs and activations alternate, generations are 1, 2, 3, ..., each activation has the size of its CONFIG, later sizes are even and in bounds |
| SessionTrace.StreamingMarks | loomd/src/session.rs:299-335 | while streaming, every CONFIG but a pending one has been activated and the last CONFIG is the host's size |
| SessionTrace.LimitsComeFromHello | loomd/src/session.rs:362-367 | the limits are the accepted HELLO's, or the first size, for the rest of the session |
| SessionTrace.FloorBeatsClient | loomd/src/session.rs:337-345 | one clamped dimension respects the client's limit if and only if that limit is at least 640 |
| SessionLimits.LimitsHoldIff | loomd/src/session.rs:299-367 | after any accepted HELLO, every later CONFIG of every continuation is within the client's limits if and only if both are at least 640, or only the initial 640 x 640 is left |
| SessionLimits.ClampFollows | loomd/src/session.rs:337-345 | the clamped dimension is 640 for any smaller request, else the largest even size up to the request, the host's limit and the client's, never below 640 |
| SessionLimits.WhereLimitsStart | loomd/src/session.rs:362-367 | over every session, the limits are both elements of HELLO key 3 or, if either is missing, the configured size |
| SessionLimits.ViewportIsAnswered | loomd/src/session.rs:295-321 | while nothing is pending, a VIEWPORT is answered by one CONFIG of the next generation that reads back as exactly that size in both dimensions, or by nothing where that is the present size |
| SessionLimits.ViewportIsIgnored | loomd/src/session.rs:299-310 | a malformed request, or one while another is in flight, changes nothing and is not answered |
| SessionTrace.SmallClientGetsFloor | loomd/src/session.rs:299-345 | a session in which a client below 640 is sent a CONFIG above its own limits |
| SessionTrace.OneClose | loomd/src/session.rs:248-275 | a close happens at most once, ends its batch, matches its ERROR, and silences the session |
| SessionFeatures.StreamReadsBack | loomd/src/session.rs:443-470 | an extra stream's entry reads back as the stream's id, size, refresh, bitrate and position |
| SessionFeatures.FeaturesAgree | loomd/src/session.rs:369-470 | WELCOME's feature bit, CONFIG's extra streams and the media start agree in every session |
| SessionFeatures.StatsReadBack | loomd/src/session.rs:163-176 | the STATS parser inverts the client's body field by field, for all 64-bit values |
| ClientView.ClientReadsWelcome | loomd/src/session.rs:411-423 | what a client reads under every key of the WELCOME that reaches it |
| ClientView.ClientReadsConfig | loomd/src/session.rs:425-470 | generation, codec, size, refresh, audio, bitrate and extra streams, under every key of the CONFIG that reaches it |
| ClientView.ClientReadsError | loomd/src/session.rs:473-491 | code and text of the ERROR that reaches it |
| ClientView.ClientReadsBadFrame | loomd/src/conn.rs:151-165 | an unreadable frame is answered by an ERROR that reads as code 4 |
| ClientView.ClientReadsPong | loomd/src/conn.rs:230-244 | the client's time stamp and the host's clock twice, under keys 0 to 2 |
| ClientView.DrivenByNumber | loomd/src/conn.rs:180-262 | the bytes that go out for each output and the code a close carries |
| ClientView.EndsByNumber | loomd/src/conn.rs:150-171 | code 0 when the stream has ended, an ERROR and code 4 on a frame that cannot be read |
| ClientView.IntLookup | loomd/src/session.rs:494-499 | an integer lookup gives the first integer under its key, passing over other types under the same key, and nothing if there is none |
| ClientView.FloatLookup | loomd/src/session.rs:514-519 | the same for the floating-point lookup |
| ClientView.PairLookup | loomd/src/session.rs:503-511 | the same for an array element: arrays too short or with something else at that place are passed over |
| ClientView.MissingStats | loomd/src/session.rs:163-175 | every STATS field that is missing or of another type reads as 0, a missing end-to-end time as none; a missing jitter, 0.0 in the source, is none in the model |
| ClientView.CastsWrap | loomd/src/session.rs:165-173 | the 64-bit and 16-bit casts keep their own range and wrap everything else into it |
| ClientView.AnyPhaseByNumber | loomd/src/session.rs:258-268 | by wire number, in every phase: BYE closes with code 0, a ping is echoed, unknown types do nothing |
| ClientView.HelloByNumber | loomd/src/session.rs:348-388 | which refusal in which order, the limits, the feature bit and the two answers |
| ClientView.OtherFirstMessage | loomd/src/session.rs:349-351 | anything else first is refused with code 4 |
| ClientView.AckByNumber | loomd/src/session.rs:391-409 | the acknowledgement of the current generation is answered by START and starts the media; anything else is refused |
| ClientView.StreamingByNumber | loomd/src/session.rs:277-335 | each message type while streaming, and the refusal of every other |
| Connection.Driver.Apply | loomd/src/conn.rs:187-259 | what each kind of output writes, starts, routes to the first pipeline of its stream, or closes |
| Connection.Driver.Drive | loomd/src/conn.rs:180-261 | the loop over outputs applies them in order and stops at a close, reporting exactly that |
| Connection.Driver.SessionLoop | loomd/src/conn.rs:123-177 | the read, decode, handle, drive loop over all the peer's bytes equals the specified run |
| ConnectionRuns.ServesMessages | loomd/src/conn.rs:140-175 | over any framed messages the loop does what the session says batch by batch, then stops or goes on with the rest |
| ConnectionRuns.HowServingEnds | loomd/src/conn.rs:141-171 | end of stream is a clean close, a truncated or over-long frame a failure, a refused frame an ERROR and a violation close |
| ConnectionEffects.ClientReadsReplies | loomd/src/conn.rs:180-261 | the driver drops nothing: the bytes written are the session's messages in order, and read back one by one if each fits a frame |
| ReplySizes.StepSmall | loomd/src/session.rs:411-490 | every message of every step fits a control frame when host name, session id and the list of extra streams are small enough |
| ReplySizes.EveryReplyArrives | loomd/src/conn.rs:180-261 | so for such a host every message of every session is read back by the client, in order |
| ConnectionEffects.MediaFollowsSession | loomd/src/conn.rs:193-233 | no pipeline before the first ACK, then one per negotiated stream, each with exactly its IDR requests, the primary with every activated size |
| SessionPeers.StepKeeps | loomd/src/session.rs:248-409 | every step of host and conforming client keeps the in-flight invariant |
| SessionPeers.HostNeverFails | loomd/src/session.rs:248-409 | in every interleaving at most one CONFIG or ACK is in flight, with the current generation, and the host neither reports an error nor closes except for BYE |
| SessionPeers.PeersAgree | loomd/src/session.rs:299-335 | once nothing is pending, the client's latest CONFIG is the host's configuration |
| SessionProgress.NeverStuck | loomd/src/session.rs:299-409 | from every reachable state without a BYE some continuation settles the stream, and a host that is streaming keeps the generation, size and limits it has announced |
| SessionReach.AnySizeIsReached | loomd/src/session.rs:299-346 | from every reachable state without a BYE, for every size a client may ask for, some continuation ends with nothing pending, the host at the answer to that size and the client holding that configuration |
| ConnectionPeers.BytesNeverFail | loomd/src/conn.rs:123-177 | every interleaving over the byte streams: host and client find their streams in order, the host neither fails nor closes except for BYE, and the client owes at most one ACK |
| ConnectionPeers.BytesAgree | loomd/src/session.rs:299-335 | over the bytes too, once nothing is pending the client's latest CONFIG is the host's, in canonical form |
| ConnectionPeers.LoopInStep | loomd/src/conn.rs:123-177 | at every moment of such a run the host has done what the connection loop does with the bytes written so far |
| ConnectionPeers.LoopEndsWell | loomd/src/conn.rs:123-177 | whenever the client stops writing the loop ends in a close without error |
| ConnectionPeers.BytesNeverStuck | loomd/src/conn.rs:123-177 | from every reachable state without a BYE some further moves over the bytes settle the stream at the announced generation and size |
| AnnexB.Append | loom-encode/src/annexb.rs:24-58 | extends the output by the units read before the end or the first error, and reports that error, or a keyframe exactly when the first byte of some unit lies in 38..41 modulo 128 |
| AnnexB.HeaderType | loom-encode/src/annexb.rs:49-50 | for every forbidden bit, type and layer bit, the unit header gives back the type |
| AnnexB.IdrByFirstByte | loom-encode/src/annexb.rs:49-50 | a unit is an IDR exactly when its first byte lies in 38..41 modulo 128 |
| AnnexB.PrefixBytes | loom-encode/src/annexb.rs:33-38 | a four-byte, two-byte or one-byte length is read most significant byte first |
| AnnexB.LongPrefixWraps | loom-encode/src/annexb.rs:34-37 | of a prefix longer than eight bytes only the last eight reach the 64-bit length |
| AnnexB.UnitStands | loom-encode/src/annexb.rs:53-54 | in the output every unit stands whole behind 0, 0, 0, 1, and nothing else is written |
| AnnexB.ParsesIffPrefixed | loom-encode/src/annexb.rs:24-58 | success if and only if the input is a concatenation of length-prefixed non-empty units, which it determines |
| AnnexB.ErrorsByShape | loom-encode/src/annexb.rs:29-47 | after any units, a cut length, a zero length and a length past the end are each reported as such, with the units before kept |
| AnnexB.NalTypes | loomd/tests/bitstream_conformance.rs:46-65 | the scanner's loop equals the specified scan |
| AnnexB.ScannerRecovers | loomd/tests/bitstream_conformance.rs:46-65 | for units obeying section 7.4.2 of H.265 the scanner recovers exactly their types in order |
| AnnexB.TranslationKeepsTypes | loom-encode/src/annexb.rs:24-58 | translating and scanning gives the types of the input units, and an IDR type exactly when a keyframe was reported |
| ClockSync.ClockFilter.Push | loom-proto/src/clocksync.rs:42-61 | returns the minimum-rtt sample of the last 16 of the whole history, the latest on ties |
| ClockSync.ChosenAmongSixteen | loom-proto/src/clocksync.rs:42-61 | the chosen sample is one of the last sixteen, of smallest round trip, and the newest of those |
| ClockSync.ChoiceIsUnique | loom-proto/src/clocksync.rs:52-60 | that sample is unique, so the specification determines the result |
| ClockSync.EstimateIsTight | loom-proto/src/clocksync.rs:42-61 | for truthful samples twice the offset error is at most the round trip rounded up to even, the smallest such bound in the window |
| ClockSync.BoundIsReached | loom-proto/src/clocksync.rs:43-45 | the bound is attained for every round trip and every true offset |
| ClockExchange.PingMeasuresOffset | loomd/src/conn.rs:229-244 | a ping is answered without touching the session, and the client's sample from the transported answer is within half its round trip, rounded up, of the true offset |
| Planes.I420Buffer.constructor | loom-capture/src/frame.rs:19-31 | even dimensions, zeroed planes of the right sizes |
| Planes.I420Buffer.CopyFrame | loom-capture/src/frame.rs:64-68 | the destination holds the same three planes |
| Planes.FitsIffRowsEnd | loom-capture/src/nv12.rs:22-39 | the one condition on a plane's length is that every row ends within it, as slicing row by row demands |
| Planes.PlacedReadsBack | loom-encode/src/videotoolbox.rs:381-406 | rows placed at one stride and read back are the rows placed |
| Convert.ToI420 | loom-capture/src/convert.rs:30-65 | for every size, stride and byte order all three planes equal the per-pixel and per-block formulas |
| Convert.LumaFromBytes | loom-capture/src/convert.rs:36-45 | every luma sample from the pixel's bytes, for both byte orders |
| Convert.ChromaFromBytes | loom-capture/src/convert.rs:47-65 | every chroma sample from the means of the block's bytes, for both byte orders |
| Convert.LimitedRange | loom-capture/src/convert.rs:67-77 | the narrowing casts never truncate: luma in 16..235, chroma in 16..240 |
| Convert.PictureInRange | loom-capture/src/convert.rs:30-77 | so for every sample of every converted picture |
| Convert.GreyPicture | loom-capture/src/convert.rs:47-77 | a picture of grey pixels has chroma 128 everywhere |
| Nv12.ToI420 | loom-capture/src/nv12.rs:16-39 | the copy and split loops fill all three planes from the strided source |
| Nv12.SampleFromByte | loom-capture/src/nv12.rs:22-39 | each Y, Cb and Cr sample is its own byte of the padded source, Cb before Cr |
| Nv12.FillPixelBuffer | loom-encode/src/videotoolbox.rs:381-406 | luma rows and interleaved chroma land at the destination strides; padding is untouched |
| Nv12.SampleToByte | loom-encode/src/videotoolbox.rs:391-406 | each visible chroma byte of the destination is its own sample, U before V |
| Nv12.LumaToByte | loom-encode/src/videotoolbox.rs:381-389 | each visible luma byte of the destination is its own sample |
| Nv12.HoldsIffPlaced | loom-encode/src/videotoolbox.rs:381-406 | what is promised of a destination plane is met by the rows placed at its stride and by nothing else |
| Nv12.RoundTrip | loom-capture/src/nv12.rs:16-39 | split and interleaved again, every visible byte comes back, at any source and destination strides |

## Left out

- QUIC, TLS, tokio tasks, the CLI, logging and the BUSY semaphore: the control stream is a byte sequence that holds
  everything the peer will send, and a write never fails.
- `MediaHandle` threads and their joining: a pipeline's channels are the lists of everything sent down them, and
  `MediaLoop.Input` says what each tick finds in its channels.
- x265, NVENC and VideoToolbox: an encoder is its answer per tick; `MediaLoopRuns.Honest` and `OneInOneOut`,
  `MediaFirstOutput.Keyed` or `MediaDelay.Answers` states what is expected of it. Likewise capture backends are a flag
  per tick. A pipeline whose encoder or source does not open never runs.
- Real time: arrival times and clock readings are inputs; `pace` and the latency budgets are not modelled.
- The xorshift loss injector: any drop pattern is allowed, so its statistics are not modelled.
- ciborium: `CborReading.Decode` reads the definite-length shapes of section 3 of RFC 8949 and unwraps tags; bignum tags,
  indefinite lengths, UTF-8 validation and the nesting limit are not modelled.
- `encode_float` width selection and `jitter` arithmetic: a float is its two, four or eight bytes.
- 64-bit overflow of session generations, clock arithmetic and millisecond times.
- Generation of session ids, error-code names other than the one sent, display and source selection in `StreamSpec`.
- The JSON vector adapter, pairing, keymaps, the test pattern and the stub crates: they would add only easy members.
- Nv12.FillPixelBuffer: the source writes at raw addresses into a locked buffer; here the destination planes are
  two distinct arrays, and locking and pool allocation are not modelled.

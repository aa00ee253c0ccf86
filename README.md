# wireless-display: a Dafny model of the streaming core

wireless-display turns one machine's screen into a remote monitor for another. The server
captures a screen, encodes it as H.264 and streams it over WebRTC. It also sends the cursor
position on a side channel. The client reassembles the RTP stream into access units, decodes
them and draws them letterboxed in a window.

This project models the small pieces of sequential logic inside that pipeline. Each piece is
one Dafny module.

- `ClientConnect` (client_connect.dfy): the access-unit reassembler of `process_video_track`.
  Successfully depacketized RTP payloads go into `frame_buf`, each after the Annex B start
  code `00 00 00 01` (ITU-T H.264, Annex B). The RTP marker bit (section 5.1 of RFC 6184)
  flushes the buffer as one `WebRTCPacket` tagged with `last_timestamp`. The loop is a
  `while` loop over the packets read. It is proved against the specification function `Run`.
  The lemmas on `Run` state the round trips and the shape of every emitted unit.
- `ServerState` (server_state.dfy): `ConnectionState` and `AppState`. `AppState` is a class
  whose session cells the handlers update in place.
- `ServerRoute` (server_route.dfy): `sdp_handler` and the peer-connection state observer.
  Both are methods over the shared `AppState`, proved against the pure transition functions
  `OfferOutcome` and `PeerStateOutcome`. Lemmas over arbitrary event sequences prove three
  things: the single-session invariant holds, a second offer is refused until the peer
  reports a terminal state, and after that state a new offer is accepted.
- `ServerCapture` (server_capture.dfy): hardware-encoder selection, the per-codec option
  table, pts on the 90 kHz clock, the bounded `try_send` queues (a class), the frame loop,
  and the cursor normalisation with its sampling loop.
- `ClientGui` (client_gui.dfy): the `GuiWindow` frame-pacing throttle, the fullscreen toggle
  and the latest-frame slot.
- `SharedRenderer` (shared_renderer.dfy): the aspect-fit scale, the quad's vertices, the
  index buffer and `OpenGLRenderer`'s remembered texture size.
- `Common` (common.dfy): `Option`, `Result`, `byte`, `u32` and `I64Max`.

These inputs are parameters of the model:

- what `H264Packet::depacketize` returns for a packet;
- the handles `create_peer_connection` and `TrackLocalStaticSample::new` would produce;
- the local description obtained after ICE gathering;
- which encoder names FFmpeg finds;
- the packets the encoder returns per frame;
- whether the track slot held a track (`try_lock` plus `is_some`);
- the pointer readings;
- the current time in milliseconds;
- the outcome of `frame_rx.try_recv()`.

Points where the code's behaviour is easy to misread, modelled as the code does it:

- A successful depacketize always appends the start code, even when the payload is empty
  (src/client/connect.rs:108-111). Such a packet makes the buffer non-empty, so a marker
  then flushes a unit that may hold only start codes (`Feed`).
- A flushed unit is tagged with `last_timestamp`, the timestamp of the last packet that
  depacketized successfully. In RTP for H.264 (section 5.1 of RFC 6184) every packet of an
  access unit carries the same timestamp, so this normally is the marker packet's
  timestamp. It differs when the marker packet itself fails to depacketize (`Feed`).
- Every sample carries the same duration, `1/framerate` (src/server/capture.rs:246-247).
  The first sample is not treated differently. The model leaves durations out (see below).
- The Windows hardware list ends with `h264_mf`. That encoder has no arm of its own in
  the option table, so it gets the libx264 options (`MediaFoundationLast`, `FallbackOptions`).

Two observations from the code, modelled as written:

- The observer closure does not check which peer connection reported the state. In the
  model, any terminal report resets the session (`PeerStateOutcome`).
- `encoder::find(Id::H264)` may return an encoder other than libx264, but the code always
  reports the name `"libx264"`. It therefore applies the libx264 options (`SelectEncoder`).

## Model

| member | source | states |
|---|---|---|
| ClientConnect.Feed | src/client/connect.rs:108-128 | one packet: a success appends exactly start code + payload after the unchanged earlier bytes and sets last_timestamp, a failure changes nothing; no marker never emits; a marker empties the buffer and emits exactly when the buffer (after this packet) is non-empty, the unit being the whole buffer tagged with last_timestamp; the start-code shape of the buffer is kept |
| ClientConnect.ProcessVideoTrack | src/client/connect.rs:93-130 | the reassembly loop emits exactly the units of the specification run from an empty buffer and timestamp 0; each unit starts with 00 00 00 01; at most one unit per marker packet |
| ClientConnect.RunWellFormed | src/client/connect.rs:108-119 | over any packet sequence, every emitted unit is non-empty and begins with the start code, and units never outnumber marker packets |
| ClientConnect.Accumulate | src/client/connect.rs:108-112 | successful packets without the marker extend the buffer by their Annex B stream and emit nothing; last_timestamp becomes the last packet's |
| ClientConnect.RoundTrip | src/client/connect.rs:108-126 | the fragments p1..pn of one access unit (marker only on pn) yield exactly one unit (SC+p1)+...+(SC+pn) after any earlier buffer contents, tagged with pn's timestamp, and leave the buffer empty |
| ClientConnect.RunAppend | src/client/connect.rs:98-129 | feeding a then b is the same as feeding a + b: final state and emitted units compose |
| ClientConnect.StreamRoundTrip | src/client/connect.rs:98-129 | from an empty buffer, a stream of well-formed access units is reassembled unit for unit, with the buffer empty after each |
| ServerState.AppState.constructor | src/server/mod.rs:30-39 | AppState::new keeps screen_index and password as given and starts Disconnected with no peer connection and no video track |
| ServerState.ScreenIndexOf | src/server/mod.rs:57 | the one-based monitor index passed to AppState::new is at least 1, whatever the selection |
| ServerRoute.EmptyPasswordAcceptsMissing | src/server/route.rs:61-69 | with no configured password every offer passes; a configured empty password accepts an offer without a password (absent reads as "") and rejects every non-empty password |
| ServerRoute.OfferOutcome | src/server/route.rs:61-151 | the password check comes first and a mismatch is rejected as InvalidPassword with the session unchanged; then a session that is not Disconnected is rejected as busy, unchanged; success exactly when both pass and a local description exists, with Connected, both handles set and a reply whose password is None; without a local description the session stays Connecting with both handles set; the single-session invariant is kept |
| ServerRoute.PeerStateOutcome | src/server/route.rs:114-121 | Disconnected, Closed or Failed reset the session to Disconnected with both handles cleared; any other state changes nothing; the invariant is kept |
| ServerRoute.SdpHandler | src/server/route.rs:57-152 | the handler's step-by-step writes end in exactly the session and reply of OfferOutcome, and keep the single-session invariant |
| ServerRoute.OnPeerConnectionStateChange | src/server/route.rs:110-123 | the observer closure's writes end in exactly PeerStateOutcome |
| ServerRoute.ReplayKeepsConsistent | src/server/route.rs:83-142 | with atomic handlers, every sequence of offers and peer-state events keeps Disconnected iff no peer connection iff no video track |
| ServerRoute.BusyUntilTerminal | src/server/route.rs:71-121 | once a session is Connecting or Connected it stays so until the peer reports a terminal state |
| ServerRoute.SecondOfferRejected | src/server/route.rs:71-77 | after an offer passes both checks, every later offer is rejected (busy or wrong password) and leaves the session alone until a terminal peer state is reported |
| ServerRoute.ReconnectAfterTerminal | src/server/route.rs:114-125 | after a terminal peer state, the next offer with the right password passes the busy check, and succeeds when a local description is produced |
| ServerCapture.HwEncoders | src/server/capture.rs:37-54 | each target has a non-empty ordered list of hardware encoder names |
| ServerCapture.FirstAvailable | src/server/capture.rs:127-134 | find_map: the result is an available candidate preceded only by unavailable ones, and there is none exactly when no candidate is available |
| ServerCapture.SelectEncoder | src/server/capture.rs:125-149 | with acceleration the first available name of the target's HW_ENCODERS list, in list order, is chosen; otherwise, or when none is available, "libx264" if an H.264 encoder exists, else the panic (acceleration on) or the "H264 encoder not found" error (acceleration off) |
| ServerCapture.NvencPreferred | src/server/capture.rs:37-54 | on Windows and Linux, with acceleration, NVENC is chosen whenever it is found, since it heads both lists |
| ServerCapture.MediaFoundationLast | src/server/capture.rs:37-44 | with acceleration on Windows and h264_mf present, h264_mf is chosen exactly when NVENC, AMF and QSV are all missing |
| ServerCapture.EncoderOptions | src/server/capture.rs:165-215 | every branch sets a 15-frame key interval (g or keyint = "15") and a profile; a name without its own branch gets exactly the libx264 option set |
| ServerCapture.FallbackOptions | src/server/capture.rs:205-214 | h264_mf and the software fallback both get the libx264 options (zerolatency, sc_threshold 0) |
| ServerCapture.Pts | src/server/capture.rs:233-234 | pts is within 0..i64::MAX, is 0 for frame 0, and is frame*90000/framerate truncated (pts*framerate <= frame*90000 < (pts+1)*framerate) when that fits |
| ServerCapture.PtsMonotone | src/server/capture.rs:224-236 | pts never decreases as frame_count grows |
| ServerCapture.PtsConstantSpacing | src/server/capture.rs:162-236 | when the framerate divides 90000, frame n has pts exactly n*(90000/framerate): constant, drift-free spacing |
| ServerCapture.BoundedQueue.constructor | src/server/capture.rs:61 | a channel of the given positive capacity starts empty |
| ServerCapture.BoundedQueue.TrySend | src/server/capture.rs:255 | try_send appends when below capacity and otherwise drops the value, never exceeding capacity and never touching existing entries |
| ServerCapture.BoundedQueue.TryRecv | src/server/capture.rs:69 | the sending task receives the oldest waiting value |
| ServerCapture.FillKeepsOldest | src/server/capture.rs:243-256 | offering values one by one keeps the existing entries, takes the first values that fit, drops every later one, and never exceeds capacity |
| ServerCapture.SampleQueueHoldsTwo | src/server/capture.rs:61 | while nothing is received, the sample queue of capacity 2 never holds more than two samples, and from empty it keeps exactly the first two offered |
| ServerCapture.SendEncodedPackets | src/server/capture.rs:241-257 | each encoded packet met by a ready track is offered to the sample queue, in order, with drop-when-full |
| ServerCapture.EncodeFrames | src/server/capture.rs:223-259 | on the capacity-2 sample queue: frame i gets pts Pts(i, framerate), frame_count rises by exactly one per decoded frame, the queue ends as the drop-when-full filling with the offered samples and never holds more than 2 |
| ServerCapture.RelativeAxis | src/server/capture.rs:325-348 | a positive extent gives offset/extent when the offset lies in [0, extent] and -1 otherwise; a zero extent gives 0; the value is always -1 or in [0, 1] |
| ServerCapture.NormalizeCursor | src/server/capture.rs:325-353 | both axes of the cursor position are -1 or within [0, 1] |
| ServerCapture.NormalizeCursorExamples | src/server/capture.rs:325-353 | on a 1920x1080 screen at the origin, (960, 540) gives (0.5, 0.5) and (-10, 540) gives (-1, 0.5) |
| ServerCapture.CaptureMouse | src/server/capture.rs:320-361 | on the capacity-64 cursor queue: the loop samples readings up to the first read error, which ends it, and the queue ends as the drop-when-full filling with their normalised positions, never holding more than 64 |
| ClientGui.FrameDurationIs16 | src/client/gui.rs:48 | 1000/60 by integer division is 16 ms |
| ClientGui.ElapsedReachesPeriod | src/client/gui.rs:63-65 | for a positive period, the saturating duration_since reaches the period exactly when now is at least that far past the earlier instant, and never when the clock appears to run backwards |
| ClientGui.GuiWindow.constructor | src/client/gui.rs:38-50 | a new window state has no window, no current frame, is not fullscreen, and starts pacing from now |
| ClientGui.GuiWindow.Resumed | src/client/gui.rs:97 | resuming stores the created window and changes nothing else |
| ClientGui.GuiWindow.ToggleFullscreen | src/client/gui.rs:52-61 | the fullscreen flag flips exactly when a window exists; nothing else changes |
| ClientGui.ToggleTwiceRestores | src/client/gui.rs:52-61 | two toggles restore the flag, with or without a window, and leave the window, the current frame and the pacing clock as they were |
| ClientGui.GuiWindow.ShouldRender | src/client/gui.rs:63-71 | true iff at least frame_duration has elapsed since last_frame_time (for a positive period: iff now - last_frame_time >= frame_duration); on true last_frame_time becomes now, on false nothing changes |
| ClientGui.GuiWindow.PollFrame | src/client/gui.rs:113-116 | a received frame replaces the current one; with none waiting the old frame is kept |
| ClientGui.RendersSpaced | src/client/gui.rs:63-71 | whatever the polling times, the first render is at least one period after the start and consecutive renders are at least one frame period apart |
| ClientGui.PollRenders | src/client/gui.rs:63-71 | asking should_render at successive times answers true exactly at RenderTimes from the last render time, so renders are at least one frame period apart; the pacing clock ends at the last render time (unchanged when nothing rendered) and nothing else changes |
| SharedRenderer.AspectFitScale | src/shared/renderer.rs:194-201 | a window wider than the frame keeps full height, otherwise full width; both factors lie in [0, 1]; a zero frame or window aspect gives exactly 0 on that axis; for positive sizes both are positive and scale_x*window_aspect = scale_y*frame_aspect |
| SharedRenderer.RenderKeepsAspect | src/shared/renderer.rs:194-201 | for positive sizes, the quad's pixel width over pixel height equals the frame's width over height |
| SharedRenderer.QuadVertices | src/shared/renderer.rs:203-210 | four vertices using each texture corner once, each placed at (+-scale_x, +-scale_y) on the side its texture coordinate names, so the image is not mirrored |
| SharedRenderer.IndicesTileQuad | src/shared/renderer.rs:88-91 | indices are all below 4, cover all four vertices, and the two triangles share exactly the edge 1-3, a diagonal between opposite corners |
| SharedRenderer.OpenGLRenderer.constructor | src/shared/renderer.rs:79-168 | a new renderer is 0x0 and its vertex buffer holds the full-window quad |
| SharedRenderer.OpenGLRenderer.UpdateTexture | src/shared/renderer.rs:172-176 | the frame's width and height are recorded |
| SharedRenderer.OpenGLRenderer.Render | src/shared/renderer.rs:192-219 | with positive heights, the vertex buffer is rewritten with the aspect-fit quad for the current frame and window size |

## Left out

- FFmpeg work is left out because it is foreign library code: opening the input device per
  OS (`create_input_context`), decoding, scaling and encoding, and the client decoder loop
  `run_video_processor`. The frame loop sees the encoder's packets per decoded frame. The
  input-packet loop and the decoder's frame loop are folded into one sequence of frames.
- WebRTC internals are left out because they are library code or encoding: the
  `H264Packet::depacketize` algorithm (abstract), peer connection creation, SDP
  base64/JSON encoding, ICE gathering and the RTCP drain task.
- HTTP routing, CORS, reqwest, mDNS pairing, CLI parsing, the interactive monitor prompt,
  window and OpenGL calls, and the shaders are left out as I/O glue.
- SdpHandler: the `unwrap` panics on a malformed offer or a failing peer-connection call are
  not modelled. Every step before the local description is taken to succeed.
- SdpHandler: each handler run is one atomic step. In the code, the busy check (route.rs:72)
  and the transition to Connecting (route.rs:125) take the lock separately, and the observer
  can run between route.rs:125 and route.rs:142. Concurrent offers can therefore both pass
  the busy check. A sequential model cannot express this race.
- ProcessVideoTrack: a failing `packet_tx.send` ends the loop in the code. This is not
  modelled, because the receiver is dropped only when the video processor task stops.
  The end of `packets` stands for the read error that ends the loop.
- EncodeFrames: the sample duration `Duration::from_secs_f64(1.0 / framerate)` is not
  modelled (floating point), and samples carry only their data. An error from
  `send_packet`, `scaler.run` or `send_frame` (the `?` at src/server/capture.rs:229, 237
  and 240) ends the whole capture task, and `encoded_packet.data().unwrap()` (line 245)
  could panic; the model takes every such call to succeed. The shutdown flag checked after
  each input packet is also left out.
- BoundedQueue.TrySend: the failure when the receiver has been dropped is not modelled. The
  receiving task's `recv` waits while the queue is empty; `TryRecv` returns `None` instead.
- Pts: the f64 rounding of `frame_count * 90000 / framerate` is not modelled. The quotient is
  exact, then truncated. `frame_count` is an unbounded count rather than an `i64`.
- RelativeAxis: computes over exact reals, not f64. The i32 subtraction `x - device.x`,
  which could overflow, is taken as exact.
- AspectFitScale: computes over exact reals, not f32. Render requires positive heights and
  a positive frame or window width, where f32 arithmetic would instead produce infinities
  or NaN.
- ShouldRender: time is whole milliseconds rather than `Instant`'s nanoseconds.
- The tokio tasks, the shutdown broadcast and `AtomicBool`, `select!`, and the send tasks'
  writes to the track and data channel are left out as concurrency and I/O. `try_lock`
  contention is folded into each packet's `trackReady` flag.

# shine MP3 encoder element, modelled in Dafny

`shinemp3enc` is a GStreamer 0.10 audio encoder element. It adapts the
fixed-point shine MP3 engine to the host's audio-encoder base class. The
element keeps a few fields: three properties (channel mode, bitrate,
emphasis), the negotiated input format, the engine configuration and the
engine handle. The host drives it through five callbacks:

- `start` only logs and succeeds.
- `set_format` tears down any old engine session and configures a new one.
- `handle_frame` cuts each buffer of interleaved 16-bit PCM into passes of
  exactly `samples_per_pass` sample frames. It hands each pass to the
  engine and pushes every non-empty compressed frame downstream at once,
  until the sink refuses one.
  Called with no buffer, it marks end of stream: with a session it drains
  the engine, and when the drain returns bytes it pushes them as the final
  frame.
- With a session, `flush` drains the engine without pushing.
- `stop` closes the engine if there is one.

The model has these modules:

- `Wrappers`: the `Option` type, used for the engine handle, which is
  either live or absent.
- `Gst`: the host's flow results, a 32-bit unsigned integer that wraps
  around, and input buffers (only their byte size matters).
- `ShineLib`: the engine's configuration, handle and initialisation reply.
- `Trace`: the interactions with the engine and the sink (`Event`) and the
  filters that extract the encode calls, the pushed frame sizes, the sink's
  answers and the accepted byte count from a trace.
- `Chunking`: the loop of `handle_frame`. `Chunk` specifies it from the
  remaining pass count. `EncodePasses` is the loop itself as a `while`
  loop, proved equal to `Chunk`. Lemmas prove what the loop promises.
- `Session`: the element's state as a value (`EncState`) and one
  specification function per operation (`Release`, `WithProperty`,
  `SetupStep`, `SetFormatStep`, `FlushFullRun`, `HandleFrameRun`), with
  the lemmas about them.
- `Element`: the element as a class (`ShineMp3Enc`) whose fields the
  methods update in place. Each method is proved to produce the new state
  and the interactions that its specification function gives.

The engine and the sink are not modelled; their answers are parameters:

- `check` is the compatibility check on sample rate and bitrate. A negative
  answer rejects the configuration.
- `reply` is what `shine_initialise` returns: NULL, or a handle with its
  samples-per-pass. `ShineLib.NewHandle` turns that reply into the stored
  handle, which holds the configuration it was created from.
- `enc[k]` is the byte count of the k-th encode call.
- `flushSize` is the byte count of the drain.
- `sink[j]` is the host's answer to the j-th pushed frame.

Every operation returns the trace of interactions it performed. The
properties are stated over that trace.

Three behaviours of the code are worth noting:

- Setup asks the engine's rate/bitrate check first and validates the
  channel count only afterwards (`src/gstshinemp3enc.c:400-411`).
- A buffer whose size is not a whole number of sample frames is
  truncated by the integer division, not rejected: the trailing bytes are
  never read (`src/gstshinemp3enc.c:365`).
- The Mono override for a one-channel input is written back into the
  mode property itself (`src/gstshinemp3enc.c:414-415`). It therefore
  persists into later reconfigurations with two channels, as
  `Session.MonoOverridePersists` shows.

## Model

| member | source | states |
|---|---|---|
| Chunking.SampleFrames | src/gstshinemp3enc.c:365 | the frame count is the number of whole `2 * channels`-byte sample frames in the buffer: they fit in it, and one more would not |
| Chunking.EncodePasses | src/gstshinemp3enc.c:365-386 | the `while` loop over one buffer yields the result and trace of `Chunk` for `numSamples / samplesPerPass` passes; the 32-bit accumulator equals the byte count of the accepted frames, wrapped modulo 2^32 |
| Chunking.ChunkEncodes | src/gstshinemp3enc.c:368-386 | the loop makes at most one encode call per complete pass and makes all of them when it returns `Ok`; call i reads the offset of call i-1 plus one stride, and is answered by the i-th engine answer |
| Chunking.CallOffsets | src/gstshinemp3enc.c:372-385 | in closed form, encode call i reads offset `data + i * stride` |
| Chunking.ChunkFrames | src/gstshinemp3enc.c:372-382 | the pushed frame sizes are exactly the positive engine answers of the calls made, in call order; the sink's answers are consumed in order, one per pushed frame |
| Chunking.ChunkResult | src/gstshinemp3enc.c:373-391 | the loop returns `Ok` exactly when every push was accepted; otherwise it returns the first refusal, every earlier push was accepted, and the refused push is the last interaction |
| Chunking.ChunkAllAccepted | src/gstshinemp3enc.c:368-386 | when the sink accepts every frame, the loop returns `Ok` after exactly one encode call per complete pass |
| Session.InitialState | src/gstshinemp3enc.c:183-205 | a new element has no engine session and a consistent state |
| Session.Release | src/gstshinemp3enc.c:131-138 | releasing leaves no session and changes no other field; it closes the handle exactly when there was one |
| Session.WithProperty | src/gstshinemp3enc.c:271-291 | a property write gives the written property its new value and leaves the other two properties, the input format, the session and the configuration as they were, so a consistent state stays consistent |
| Session.SetupStep | src/gstshinemp3enc.c:396-437 | the rate/bitrate check is asked first; a rejection there, or a channel count other than 1 or 2, ends setup with nothing changed; otherwise the engine is initialised once with the properties and the input format, and Mono is forced for one channel; setup succeeds exactly when the engine returns a handle, and fails as `InitialiseFailed` exactly when it refuses after both checks passed |
| Session.SetFormatStep | src/gstshinemp3enc.c:229-269 | the input format is always recorded; any old session is closed before the check is asked, and the engine is initialised only when the check accepts and the channel count is 1 or 2, with a configuration made from the properties and the new format, while a rejection before that keeps the stored configuration; bitrate and emphasis are kept, and the mode becomes Mono only for an accepted one-channel input; it succeeds exactly when, in addition, the engine returns a handle, which is configured from the properties and the new format; success is exactly a live session, announcing one channel if the mode is Mono and the input channel count otherwise, the input rate, and min = max = samples-per-pass |
| Session.FlushFullRun | src/gstshinemp3enc.c:315-339 | with no session: `Ok` and no calls; otherwise the engine is drained first, nothing is encoded, and exactly one frame is pushed iff the drain gave bytes and `push` is set; the drain and that push are the only interactions; the sink's answer to that frame is the result, and `Ok` otherwise |
| Session.ReleaseIdempotent | src/gstshinemp3enc.c:131-138 | a second release closes nothing and changes nothing; a release closes at most once |
| Session.RejectedLayoutLeavesNoSession | src/gstshinemp3enc.c:407-411 | reconfiguring with a channel count outside 1..2 fails, leaves no session, and never calls `shine_initialise` |
| Session.MonoOverridePersists | src/gstshinemp3enc.c:413-419 | after a successful mono configuration the mode property is Mono, so a following stereo reconfiguration is encoded as Mono and announced as one channel |
| Session.HandleFrameCalls | src/gstshinemp3enc.c:365-386 | for a buffer, there are at most `(size / (2 * channels)) / samplesPerPass` encode calls; call i reads element offset `i * samplesPerPass * channels`, so passes are contiguous, and each pass ends inside the buffer |
| Session.HandleFrameLeftover | src/gstshinemp3enc.c:365-386 | the calls never read beyond the whole sample frames of the buffer; when the call returns `Ok` fewer than one pass of elements is left unread |
| Session.HandleFrameAllAccepted | src/gstshinemp3enc.c:365-386 | when the sink accepts every frame, `handle_frame` returns `Ok` after exactly `(size / (2 * channels)) / samplesPerPass` encode calls |
| Session.HandleFramePushes | src/gstshinemp3enc.c:368-391 | a frame is pushed for exactly the positive engine answers, in call order, each straight after the encode call that produced it and before the next call; only encode calls and pushes happen; the call returns the first sink answer other than `Ok`, with nothing after it, or `Ok` |
| Chunking.ChunkPushedAtOnce | src/gstshinemp3enc.c:372-381 | in the loop's trace every push directly follows the encode call whose answer it carries, and every encode call with a positive answer is directly followed by its push |
| Session.EndOfStreamFlushes | src/gstshinemp3enc.c:358-360 | end of stream is `flush_full` with `push` set: it encodes nothing, and with a session and a non-empty drain it pushes exactly the drained frame |
| Element.ShineMp3Enc.constructor | src/gstshinemp3enc.c:183-205 | a new element has default properties (Stereo, 128 kbit/s, no emphasis) and no session |
| Element.ShineMp3Enc.ReleaseMemory | src/gstshinemp3enc.c:131-138 | the fields after the call and the calls made are those of `Release`, and the state is consistent |
| Element.ShineMp3Enc.Stop | src/gstshinemp3enc.c:217-227 | always succeeds, releases the session as `Release` does, and leaves a consistent state |
| Element.ShineMp3Enc.SetProperty | src/gstshinemp3enc.c:271-291 | the fields after the call are those of `WithProperty`; a bitrate within 8..320 stays within it, and the state stays consistent |
| Element.ShineMp3Enc.Setup | src/gstshinemp3enc.c:395-438 | the fields after the call, its calls and its outcome are those of `SetupStep`; it returns true exactly on `Initialised`, and the state stays consistent |
| Element.ShineMp3Enc.SetFormat | src/gstshinemp3enc.c:229-269 | the fields after the call, its calls and the announced format are those of `SetFormatStep`; it returns true exactly when a format is announced, and the state is consistent |
| Element.ShineMp3Enc.FlushFull | src/gstshinemp3enc.c:315-339 | the result and calls are those of `FlushFullRun` |
| Element.ShineMp3Enc.Flush | src/gstshinemp3enc.c:341-345 | the flush callback is `flush_full` with `push` unset: it drains and pushes nothing |
| Element.ShineMp3Enc.HandleFrame | src/gstshinemp3enc.c:347-392 | the result and calls are those of `HandleFrameRun`; for a buffer, `total_mp3_size` is the accepted byte count wrapped modulo 2^32 |

## Left out

- Type registration and plugin registration are left out because they do not affect encoding. This covers the GObject type and the enum registrations, pad templates, `base_init`, `class_init` and plugin init (`src/gstshinemp3enc.c:34-56`, `59-98`, `148-200`, `440-475`).
- `start`, `get_property` and `finalize` are left out: each only logs, reads a field, or calls `release_memory` at object destruction, which `ReleaseMemory` models.
- The caps objects are not built. Of the announced format only the channel count, the rate and the frame sizes are modelled. The MPEG audio version, derived by engine helpers from the sample rate, is not part of this model, and neither are the fixed constants mpegversion 1 and layer 3.
- `shine_set_config_mpeg_defaults` is left out: the configuration fields it fills and the adapter never overwrites are engine internals.
- Sample data and compressed bytes are not modelled, and neither is copying them into output buffers. A pass is identified by its element offset in the buffer, and a frame by its byte size.
- Logging and error posting (`GST_*_OBJECT`, `GST_ELEMENT_ERROR`) are not modelled. Each setup failure is reported as a `SetupOutcome` instead.
- Writing an unknown property id, which only posts a warning, is not modelled. `PropValue` covers only the three registered properties.
- Element.ShineMp3Enc.SetProperty requires the bitrate to be within 8..320, because the host's property system enforces the range the property declares.
- Element.ShineMp3Enc.HandleFrame requires a live session for a buffer. With a buffer and no session the source dereferences a NULL handle, so the behaviour is undefined.
- The engine is assumed to report a positive samples-per-pass (`Pos`). With zero, the loop in `handle_frame` would never end.
- The engine's answers are unbounded integers: the width of the C `long` byte counts is not modelled.
- Concurrency and the host's streaming-thread locking are not modelled.

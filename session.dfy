/** The state of the shine encoder element and the specification of each of
    its operations as a function of that state and of the collaborators'
    answers: release, stop, property writes, setup, set_format, flush and
    handle_frame. */
module Session {
  import opened Wrappers
  import opened Gst
  import opened ShineLib
  import opened Trace
  import opened Chunking

  /** Range of the `bitrate` property, in kbit/s, and its default. */
  const MinBitrate: int := 8
  const MaxBitrate: int := 320
  const DefaultBitrate: int := 128

  /** The fields of `GstShineMP3Enc` the adapter reads and writes: the three
      properties, the negotiated input format, the engine configuration and
      the engine handle (`shine->shine`, NULL when there is no session). */
  datatype EncState = EncState(
    mode: Mode,
    bitrate: int,
    emphasis: Emphasis,
    samplerate: int,
    numChannels: int,
    config: Config,
    shine: Option<Handle>)

  /** A live handle was initialised from the current configuration, which
      holds the current input format with one or two channels, and a mono
      input is configured as Mono. */
  ghost predicate ValidState(s: EncState)
  {
    s.shine.Some? ==>
      s.shine.value.config == s.config &&
      s.config.samplerate == s.samplerate &&
      s.config.channels == s.numChannels &&
      1 <= s.numChannels <= 2 &&
      (s.numChannels == 1 ==> s.config.mode == Mono)
  }

  /** A fresh element: default properties (bitrate is a construct-time
      property), everything else zero, no session. */
  function InitialState(): (s: EncState)
    ensures ValidState(s) && s.shine.None?
  {
    EncState(Stereo, DefaultBitrate, NoEmphasis, 0, 0, ZeroConfig, None)
  }

  /** The result of a lifecycle operation: the new state and the engine calls. */
  datatype Step = Step(state: EncState, events: seq<Event>)

  /** `gst_shinemp3enc_release_memory`: close the engine if there is one. */
  function Release(s: EncState): (r: Step)
    ensures r.state.shine.None?
    ensures r.state.(shine := s.shine) == s
    ensures s.shine.None? ==> r.events == []
    ensures s.shine.Some? ==> r.events == [Close(s.shine.value)]
  {
    match s.shine
    case None => Step(s, [])
    case Some(h) => Step(s.(shine := None), [Close(h)])
  }

  /** A property write from `gst_shinemp3enc_set_property`. */
  datatype PropValue = ModeValue(mode: Mode) | BitrateValue(kbps: int) | EmphasisValue(emphasis: Emphasis)

  function WithProperty(s: EncState, v: PropValue): (r: EncState)
    ensures ValidState(s) ==> ValidState(r)
    ensures r.shine == s.shine && r.config == s.config
    ensures r.samplerate == s.samplerate && r.numChannels == s.numChannels
    ensures v.ModeValue? ==> r.mode == v.mode && r.bitrate == s.bitrate && r.emphasis == s.emphasis
    ensures v.BitrateValue? ==> r.bitrate == v.kbps && r.mode == s.mode && r.emphasis == s.emphasis
    ensures v.EmphasisValue? ==> r.emphasis == v.emphasis && r.mode == s.mode && r.bitrate == s.bitrate
  {
    match v
    case ModeValue(m) => s.(mode := m)
    case BitrateValue(b) => s.(bitrate := b)
    case EmphasisValue(e) => s.(emphasis := e)
  }

  /** How `gst_shinemp3enc_setup` ended; each failure posts its own error. */
  datatype SetupOutcome = Initialised | RateBitrateRejected | ChannelsRejected | InitialiseFailed

  datatype SetupResult = SetupResult(state: EncState, events: seq<Event>, outcome: SetupOutcome)

  /** `gst_shinemp3enc_setup`. The engine's compatibility check answers
      `check(samplerate, bitrate)` (negative means rejected) and
      `shine_initialise` answers `reply`. */
  function SetupStep(s: EncState, check: (int, int) -> int, reply: InitReply): (r: SetupResult)
    // the compatibility check is always asked first, and nothing else when it rejects
    ensures |r.events| >= 1 && r.events[0] == CheckConfig(s.samplerate, s.bitrate, check(s.samplerate, s.bitrate))
    ensures check(s.samplerate, s.bitrate) < 0 ==> r.outcome == RateBitrateRejected && r.state == s && |r.events| == 1
    // a channel count other than 1 or 2 is rejected before the engine is initialised
    ensures check(s.samplerate, s.bitrate) >= 0 && !(1 <= s.numChannels <= 2) ==>
              r.outcome == ChannelsRejected && r.state == s && |r.events| == 1
    // the engine is initialised, once, exactly when both checks pass, with the configuration stored
    ensures |r.events| > 1 <==> check(s.samplerate, s.bitrate) >= 0 && 1 <= s.numChannels <= 2
    ensures |r.events| > 1 ==> |r.events| == 2 && r.events[1] == Initialise(r.state.config, reply)
    // the configuration carries the properties and the input format; one channel forces Mono,
    // and that is written back into the stored mode property
    ensures |r.events| > 1 ==>
              r.state.config == Config(s.bitrate, r.state.mode, s.emphasis, s.samplerate, s.numChannels) &&
              r.state.mode == (if s.numChannels == 1 then Mono else s.mode)
    // success is exactly a live handle when there was none before
    ensures r.outcome == Initialised ==> r.state.shine.Some? && ValidState(r.state)
    ensures r.outcome == InitialiseFailed ==> r.state.shine.None? && ValidState(r.state)
    ensures r.outcome == Initialised <==> (|r.events| > 1 && reply.Created?)
    ensures r.outcome == InitialiseFailed <==> (|r.events| > 1 && reply.Refused?)
    ensures r.outcome == Initialised ==> r.state.shine.value.samplesPerPass == reply.samplesPerPass
    ensures s.shine.None? ==> (r.outcome == Initialised <==> r.state.shine.Some?)
    ensures ValidState(s) ==> ValidState(r.state)
    // the properties and the input format are never changed, except the mode
    ensures r.state.bitrate == s.bitrate && r.state.emphasis == s.emphasis
    ensures r.state.samplerate == s.samplerate && r.state.numChannels == s.numChannels
  {
    var verdict := check(s.samplerate, s.bitrate);
    var asked := [CheckConfig(s.samplerate, s.bitrate, verdict)];
    if verdict < 0 then SetupResult(s, asked, RateBitrateRejected)
    else if s.numChannels <= 0 || s.numChannels > 2 then SetupResult(s, asked, ChannelsRejected)
    else
      var mode := if s.numChannels == 1 then Mono else s.mode;
      var config := Config(s.bitrate, mode, s.emphasis, s.samplerate, s.numChannels);
      var handle := NewHandle(config, reply);
      SetupResult(s.(mode := mode, config := config, shine := handle),
                  asked + [Initialise(config, reply)],
                  if handle.Some? then Initialised else InitialiseFailed)
  }

  /** What `gst_shinemp3enc_set_format` tells the host on success: the
      output channel count and sample rate of the MPEG-1 layer 3 caps, and
      the fixed number of sample frames per input frame (min = max). */
  datatype OutputFormat = OutputFormat(channels: int, rate: int, frameSamplesMin: int, frameSamplesMax: int)

  datatype FormatResult = FormatResult(state: EncState, events: seq<Event>, negotiated: Option<OutputFormat>)

  /** `gst_shinemp3enc_set_format` for an input of `rate` Hz and `channels`
      channels. */
  function SetFormatStep(s: EncState, rate: int, channels: int, check: (int, int) -> int, reply: InitReply): (r: FormatResult)
    // the format is recorded whatever happens, and the state is always consistent
    ensures r.state.samplerate == rate && r.state.numChannels == channels
    ensures ValidState(r.state)
    // the old session is closed before the new one is configured
    ensures s.shine.Some? ==> |r.events| >= 2 && r.events[0] == Close(s.shine.value) && r.events[1].CheckConfig?
    ensures s.shine.None? ==> |r.events| >= 1 && r.events[0].CheckConfig?
    // success is exactly a live session; a failed reconfiguration leaves none
    ensures r.negotiated.Some? <==> r.state.shine.Some?
    ensures r.negotiated.Some? ==>
              r.negotiated.value.channels == (if r.state.mode == Mono then 1 else channels) &&
              r.negotiated.value.rate == rate &&
              r.negotiated.value.frameSamplesMin == r.negotiated.value.frameSamplesMax == r.state.shine.value.samplesPerPass
    // it succeeds exactly when the check accepts, the channel count is 1 or 2 and the engine
    // returns a handle, configured from the properties and the new format
    ensures var ok := check(rate, s.bitrate) >= 0 && 1 <= channels <= 2;
            r.negotiated.Some? <==> ok && reply.Created?
    ensures r.negotiated.Some? ==>
              r.state.shine.value ==
              Handle(Config(s.bitrate, r.state.mode, s.emphasis, rate, channels), reply.samplesPerPass)
    // the configuration handed to the engine comes from the properties and the new format;
    // a rejection before initialisation leaves the stored configuration as it was
    ensures var ok := check(rate, s.bitrate) >= 0 && 1 <= channels <= 2;
            (ok ==> r.state.config == Config(s.bitrate, r.state.mode, s.emphasis, rate, channels)) &&
            (!ok ==> r.state.config == s.config)
    // only the mode property may change, and only to Mono for one channel
    ensures r.state.bitrate == s.bitrate && r.state.emphasis == s.emphasis
    ensures var ok := check(rate, s.bitrate) >= 0 && 1 <= channels <= 2;
            r.state.mode == (if ok && channels == 1 then Mono else s.mode)
    // the close of the old session, the check, and the initialisation when both checks pass
    ensures var ok := check(rate, s.bitrate) >= 0 && 1 <= channels <= 2;
            r.events == (if s.shine.Some? then [Close(s.shine.value)] else []) +
                        [CheckConfig(rate, s.bitrate, check(rate, s.bitrate))] +
                        (if ok then [Initialise(r.state.config, reply)] else [])
  {
    var recorded := s.(samplerate := rate, numChannels := channels);
    var released := Release(recorded);
    var setup := SetupStep(released.state, check, reply);
    var events := released.events + setup.events;
    if setup.outcome != Initialised then FormatResult(setup.state, events, None)
    else
      var spp := setup.state.shine.value.samplesPerPass;
      var outChannels := if setup.state.mode == Mono then 1 else setup.state.numChannels;
      FormatResult(setup.state, events, Some(OutputFormat(outChannels, setup.state.samplerate, spp, spp)))
  }

  /** `gst_shinemp3enc_flush_full`: drain the engine and, when `push` is set
      and the engine returned data, push it as the final frame. The engine
      answers `flushSize` and the sink answers `sink[0]`. */
  function FlushFullRun(s: EncState, push: bool, flushSize: int, sink: seq<FlowReturn>): (r: Run)
    requires s.shine.Some? && push && flushSize > 0 ==> |sink| >= 1
    ensures s.shine.None? ==> r == Run(Ok, [])
    ensures s.shine.Some? ==> |r.events| >= 1 && r.events[0] == Drain(flushSize)
    // the drain and the optional final push are the only interactions
    ensures s.shine.Some? ==> |r.events| == 1 + |PushSizes(r.events)|
    ensures Encodes(r.events) == []
    ensures |PushSizes(r.events)| == (if s.shine.Some? && push && flushSize > 0 then 1 else 0)
    ensures PushSizes(r.events) != [] ==>
              r.events[|r.events| - 1] == Push(flushSize, sink[0]) && r.result == sink[0]
    ensures PushSizes(r.events) == [] ==> r.result == Ok
  {
    if s.shine.None? then Run(Ok, [])
    else if flushSize > 0 && push then Run(sink[0], [Drain(flushSize), Push(flushSize, sink[0])])
    else Run(Ok, [Drain(flushSize)])
  }

  /** The number of complete passes in buffer `b` for session state `s`. */
  function PassesIn(s: EncState, b: Buffer): nat
    requires ValidState(s) && s.shine.Some?
  {
    SampleFrames(b.size, s.numChannels) / s.shine.value.samplesPerPass
  }

  /** The number of 16-bit elements one pass occupies. */
  function Stride(s: EncState): nat
    requires ValidState(s) && s.shine.Some?
  {
    s.shine.value.samplesPerPass * s.numChannels
  }

  /** What `handle_frame` needs of the collaborators' answers: an engine
      answer and a sink answer for every pass of a buffer, a sink answer
      for the final frame at end of stream. */
  ghost predicate HandleFrameReplies(s: EncState, inBuf: Option<Buffer>, enc: seq<int>, sink: seq<FlowReturn>, flushSize: int)
    requires ValidState(s)
  {
    match inBuf
    case None => s.shine.Some? && flushSize > 0 ==> |sink| >= 1
    case Some(b) => s.shine.Some? && PassesIn(s, b) <= |enc| && PassesIn(s, b) <= |sink|
  }

  /** `gst_shinemp3enc_handle_frame`: end of stream (no buffer) flushes with
      `push` set; a buffer is cut into complete passes starting at element 0. */
  function HandleFrameRun(s: EncState, inBuf: Option<Buffer>, enc: seq<int>, sink: seq<FlowReturn>, flushSize: int): Run
    requires ValidState(s) && HandleFrameReplies(s, inBuf, enc, sink, flushSize)
  {
    match inBuf
    case None => FlushFullRun(s, true, flushSize, sink)
    case Some(b) => Chunk(PassesIn(s, b), 0, Stride(s), enc, sink, 0, 0)
  }

  // ---------------------------------------------------------------------
  // Properties of the specification

  /** Releasing twice is releasing once: the second release closes nothing. */
  lemma ReleaseIdempotent(s: EncState)
    ensures Release(Release(s).state) == Step(Release(s).state, [])
    ensures |Release(s).events| <= 1
  {
  }

  /** A reconfiguration with an unsupported channel count fails, never
      initialises the engine, and leaves no session. */
  lemma RejectedLayoutLeavesNoSession(s: EncState, rate: int, channels: int, check: (int, int) -> int, reply: InitReply)
    requires !(1 <= channels <= 2)
    ensures var r := SetFormatStep(s, rate, channels, check, reply);
            r.negotiated.None? && r.state.shine.None? &&
            forall e :: e in r.events ==> !e.Initialise?
  {
    var recorded := s.(samplerate := rate, numChannels := channels);
    var released := Release(recorded);
    var setup := SetupStep(released.state, check, reply);
    assert |setup.events| == 1;
  }

  /** The Mono override is written into the mode property, so after a mono
      stream a stereo reconfiguration (with no property write between) is
      still encoded as Mono and announced as one channel. */
  lemma MonoOverridePersists(s: EncState, rate1: int, rate2: int, check: (int, int) -> int, reply1: InitReply, reply2: InitReply)
    requires SetFormatStep(s, rate1, 1, check, reply1).negotiated.Some?
    ensures var t := SetFormatStep(s, rate1, 1, check, reply1).state;
            var r := SetFormatStep(t, rate2, 2, check, reply2);
            t.mode == Mono &&
            (r.negotiated.Some? ==> r.state.config.mode == Mono && r.negotiated.value.channels == 1)
  {
    var t := SetFormatStep(s, rate1, 1, check, reply1).state;
    var recorded := t.(samplerate := rate2, numChannels := 2);
    var setup := SetupStep(Release(recorded).state, check, reply2);
    assert setup.outcome == Initialised ==> setup.state.mode == Mono;
  }

  lemma DivBounds(frames: nat, spp: Pos)
    ensures (frames / spp) * spp <= frames < (frames / spp + 1) * spp
  {
    var q := frames / spp;
    assert frames == spp * q + frames % spp;
  }

  /** The complete passes of a buffer lie inside it: they cover at most its
      complete sample frames, in elements of `nc` channels. */
  lemma PassesFit(size: uint32, nc: int, spp: Pos)
    requires 1 <= nc <= 2
    ensures (SampleFrames(size, nc) / spp) * (spp * nc) <= size / 2
  {
    var frames := SampleFrames(size, nc);
    var passes := frames / spp;
    DivBounds(frames, spp);
    MulMono(passes * spp, frames, nc);
    assert passes * (spp * nc) == (passes * spp) * nc;
    if nc == 2 {
      assert frames * nc == 2 * frames;
    }
  }

  /** The encode calls of `handle_frame` on a buffer: call i reads the pass
      of `Stride(s)` elements starting at element `i * Stride(s)`, so passes
      are contiguous and in order, every pass lies inside the buffer, and
      there are no more calls than complete passes. */
  lemma HandleFrameCalls(s: EncState, b: Buffer, enc: seq<int>, sink: seq<FlowReturn>, flushSize: int)
    requires ValidState(s) && HandleFrameReplies(s, Some(b), enc, sink, flushSize)
    ensures var cs := Encodes(HandleFrameRun(s, Some(b), enc, sink, flushSize).events);
            |cs| <= PassesIn(s, b) && PassesRead(cs, Stride(s), enc, b.size / 2)
  {
    PassesFit(b.size, s.numChannels, s.shine.value.samplesPerPass);
    ChunkCallsWithin(PassesIn(s, b), Stride(s), enc, sink, b.size / 2);
  }

  /** The sample frames `handle_frame` leaves over: the calls never read
      beyond the complete sample frames, and when the call returns `Ok`
      fewer than one pass of them is left, which no call has read. */
  lemma HandleFrameLeftover(s: EncState, b: Buffer, enc: seq<int>, sink: seq<FlowReturn>, flushSize: int)
    requires ValidState(s) && HandleFrameReplies(s, Some(b), enc, sink, flushSize)
    ensures var r := HandleFrameRun(s, Some(b), enc, sink, flushSize);
            var read := |Encodes(r.events)| * Stride(s);
            var elements := SampleFrames(b.size, s.numChannels) * s.numChannels;
            read <= elements && (r.result == Ok ==> elements - read < Stride(s))
  {
    var p, stride := PassesIn(s, b), Stride(s);
    ChunkEncodes(p, 0, stride, enc, sink, 0, 0);
    var n := |Encodes(Chunk(p, 0, stride, enc, sink, 0, 0).events)|;
    var frames := SampleFrames(b.size, s.numChannels);
    DivBounds(frames, s.shine.value.samplesPerPass);
    LeftoverBound(n, p, s.shine.value.samplesPerPass, s.numChannels, frames);
  }

  /** `n` of `p` passes of `spp` frames, `p` being all that fit in `frames`,
      read no more than the frames and, when `n == p`, leave less than one
      pass, counted in elements of `nc` channels. */
  lemma LeftoverBound(n: nat, p: nat, spp: Pos, nc: int, frames: nat)
    requires 1 <= nc <= 2 && n <= p && p * spp <= frames < (p + 1) * spp
    ensures n * (spp * nc) <= frames * nc
    ensures n == p ==> frames * nc - n * (spp * nc) < spp * nc
  {
    MulMono(n, p, spp);
    assert n * (spp * nc) == (n * spp) * nc;
    assert (p + 1) * spp == p * spp + spp;
    if nc == 2 {
      assert frames * nc == 2 * frames;
    }
  }

  /** When the sink accepts every frame, `handle_frame` makes exactly one
      engine call per complete pass and returns `Ok`. */
  lemma HandleFrameAllAccepted(s: EncState, b: Buffer, enc: seq<int>, sink: seq<FlowReturn>, flushSize: int)
    requires ValidState(s) && HandleFrameReplies(s, Some(b), enc, sink, flushSize)
    requires forall i :: 0 <= i < PassesIn(s, b) ==> sink[i] == Ok
    ensures var r := HandleFrameRun(s, Some(b), enc, sink, flushSize);
            r.result == Ok && |Encodes(r.events)| == PassesIn(s, b)
  {
    ChunkAllAccepted(PassesIn(s, b), 0, Stride(s), enc, sink, 0, 0);
  }

  /** The frames `handle_frame` pushes are the positive engine answers, in
      call order, the sink answers are consumed in order, and the call
      returns the first refusal, after which nothing happens, or `Ok`. */
  lemma HandleFramePushes(s: EncState, b: Buffer, enc: seq<int>, sink: seq<FlowReturn>, flushSize: int)
    requires ValidState(s) && HandleFrameReplies(s, Some(b), enc, sink, flushSize)
    ensures var r := HandleFrameRun(s, Some(b), enc, sink, flushSize);
            FramesMatch(r, enc, sink, 0, 0) && EndsAtFirstRefusal(r) && PushedAtOnce(r.events)
  {
    ChunkPushedAtOnce(PassesIn(s, b), 0, Stride(s), enc, sink, 0, 0);
    ChunkFrames(PassesIn(s, b), 0, Stride(s), enc, sink, 0, 0);
    ChunkResult(PassesIn(s, b), 0, Stride(s), enc, sink, 0, 0);
  }

  /** End of stream is a flush that pushes, and reads no buffer. */
  lemma EndOfStreamFlushes(s: EncState, enc: seq<int>, sink: seq<FlowReturn>, flushSize: int)
    requires ValidState(s) && HandleFrameReplies(s, None, enc, sink, flushSize)
    ensures var r := HandleFrameRun(s, None, enc, sink, flushSize);
            r == FlushFullRun(s, true, flushSize, sink) && Encodes(r.events) == [] &&
            (s.shine.Some? && flushSize > 0 ==> PushSizes(r.events) == [flushSize])
  {
  }
}

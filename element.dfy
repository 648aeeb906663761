/** The shine MP3 encoder element (`GstShineMP3Enc`): its fields are updated
    in place by the host's calls, and each method is proved to do what the
    corresponding specification function in `Session` says. */
module Element {
  import opened Wrappers
  import opened Gst
  import opened ShineLib
  import opened Trace
  import opened Chunking
  import opened Session

  class ShineMp3Enc {
    var mode: Mode
    var bitrate: int
    var emphasis: Emphasis
    var samplerate: int
    var numChannels: int
    var config: Config
    /** `shine->shine`: the engine handle, NULL when there is no session. */
    var shine: Option<Handle>

    function State(): EncState
      reads this
    {
      EncState(mode, bitrate, emphasis, samplerate, numChannels, config, shine)
    }

    ghost predicate Valid()
      reads this
    {
      ValidState(State())
    }

    /** A new element: properties at their defaults, no session. */
    constructor ()
      ensures State() == InitialState() && Valid()
    {
      mode, bitrate, emphasis := Stereo, DefaultBitrate, NoEmphasis;
      samplerate, numChannels := 0, 0;
      config := ZeroConfig;
      shine := None;
    }

    /** `gst_shinemp3enc_release_memory`. */
    method ReleaseMemory() returns (events: seq<Event>)
      modifies this
      ensures State() == Release(old(State())).state && events == Release(old(State())).events
      ensures Valid()
    {
      events := [];
      if shine.Some? {
        events := [Close(shine.value)];
        shine := None;
      }
    }

    /** `gst_shinemp3enc_stop`: tear the session down; always succeeds. */
    method Stop() returns (ok: bool, events: seq<Event>)
      modifies this
      ensures ok
      ensures State() == Release(old(State())).state && events == Release(old(State())).events
      ensures Valid()
    {
      events := ReleaseMemory();
      ok := true;
    }

    /** `gst_shinemp3enc_set_property`; the host keeps the bitrate within
        the range the property declares. */
    method SetProperty(v: PropValue)
      requires Valid()
      requires v.BitrateValue? ==> MinBitrate <= v.kbps <= MaxBitrate
      modifies this
      ensures State() == WithProperty(old(State()), v)
      ensures Valid()
      ensures MinBitrate <= old(bitrate) <= MaxBitrate ==> MinBitrate <= bitrate <= MaxBitrate
    {
      match v
      case ModeValue(m) => mode := m;
      case BitrateValue(b) => bitrate := b;
      case EmphasisValue(e) => emphasis := e;
    }

    /** `gst_shinemp3enc_setup`; `ok` is its boolean result. */
    method Setup(check: (int, int) -> int, reply: InitReply) returns (ok: bool, outcome: SetupOutcome, events: seq<Event>)
      requires Valid()
      modifies this
      ensures var r := SetupStep(old(State()), check, reply);
              State() == r.state && events == r.events && outcome == r.outcome
      ensures ok <==> outcome == Initialised
      ensures Valid()
    {
      var verdict := check(samplerate, bitrate);
      events := [CheckConfig(samplerate, bitrate, verdict)];
      if verdict < 0 {
        return false, RateBitrateRejected, events;
      }
      if numChannels <= 0 || numChannels > 2 {
        return false, ChannelsRejected, events;
      }
      if numChannels == 1 {
        mode := Mono;
      }
      config := Config(bitrate, mode, emphasis, samplerate, numChannels);
      shine := NewHandle(config, reply);
      events := events + [Initialise(config, reply)];
      ok := shine.Some?;
      outcome := if ok then Initialised else InitialiseFailed;
    }

    /** `gst_shinemp3enc_set_format`; `ok` is its boolean result and
        `negotiated` what it reports to the host on success. */
    method SetFormat(rate: int, channels: int, check: (int, int) -> int, reply: InitReply)
      returns (ok: bool, negotiated: Option<OutputFormat>, events: seq<Event>)
      modifies this
      ensures var r := SetFormatStep(old(State()), rate, channels, check, reply);
              State() == r.state && events == r.events && negotiated == r.negotiated
      ensures ok <==> negotiated.Some?
      ensures Valid()
    {
      samplerate := rate;
      numChannels := channels;
      var closed := ReleaseMemory();
      var setupOk, outcome, configured := Setup(check, reply);
      events := closed + configured;
      if !setupOk {
        return false, None, events;
      }
      var spp := shine.value.samplesPerPass;
      negotiated := Some(OutputFormat(if mode == Mono then 1 else numChannels, samplerate, spp, spp));
      ok := true;
    }

    /** `gst_shinemp3enc_flush_full`: the engine's drain answers `flushSize`
        and the sink answers `sink[0]` to the final frame, if any. */
    method FlushFull(push: bool, flushSize: int, sink: seq<FlowReturn>) returns (result: FlowReturn, events: seq<Event>)
      requires shine.Some? && push && flushSize > 0 ==> |sink| >= 1
      ensures Run(result, events) == FlushFullRun(State(), push, flushSize, sink)
    {
      result := Ok;
      if shine.None? {
        return Ok, [];
      }
      events := [Drain(flushSize)];
      if flushSize > 0 && push {
        result := sink[0];
        events := events + [Push(flushSize, result)];
      }
    }

    /** `gst_shinemp3enc_flush`: drain without pushing. */
    method Flush(flushSize: int) returns (events: seq<Event>)
      ensures events == FlushFullRun(State(), false, flushSize, []).events
      ensures PushSizes(events) == []
    {
      var _, drained := FlushFull(false, flushSize, []);
      events := drained;
    }

    /** `gst_shinemp3enc_handle_frame`. `inBuf == None` is the end-of-stream
        call. For a buffer, encode call k is answered `enc[k]` by the engine
        and push j is answered `sink[j]` by the sink; `totalMp3Size` is the
        byte count the source logs, a `guint` that wraps around. */
    method HandleFrame(inBuf: Option<Buffer>, enc: seq<int>, sink: seq<FlowReturn>, flushSize: int)
      returns (result: FlowReturn, events: seq<Event>, totalMp3Size: uint32)
      requires Valid() && HandleFrameReplies(State(), inBuf, enc, sink, flushSize)
      ensures Run(result, events) == HandleFrameRun(State(), inBuf, enc, sink, flushSize)
      ensures inBuf.Some? ==> totalMp3Size == Wrap32(OkBytes(events))
    {
      totalMp3Size := 0;
      if inBuf.None? {
        result, events := FlushFull(true, flushSize, sink);
        return;
      }
      var numSamples := inBuf.value.size / (2 * numChannels);
      result, events, totalMp3Size := EncodePasses(numSamples, shine.value.samplesPerPass, shine.value.samplesPerPass * numChannels, enc, sink);
    }
  }
}

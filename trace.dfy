/** The interactions of the adapter with its two collaborators, the shine
    engine and the downstream sink, recorded in the order they happen. */
module Trace {
  import opened Gst
  import opened ShineLib

  datatype Event =
    /** `shine_check_config(samplerate, bitrate)` answered `verdict`. */
    | CheckConfig(samplerate: int, bitrate: int, verdict: int)
    /** `shine_initialise(&config)` answered `reply`. */
    | Initialise(config: Config, reply: InitReply)
    /** `shine_close(handle)`. */
    | Close(handle: Handle)
    /** `shine_encode_buffer_interleaved` on the pass starting `offset` 16-bit
        elements into the input buffer, answering `mp3Size` bytes. */
    | Encode(offset: nat, mp3Size: int)
    /** `shine_flush`, answering `mp3Size` bytes. */
    | Drain(mp3Size: int)
    /** `gst_audio_encoder_finish_frame` on a frame of `size` bytes, answering
        `result`. */
    | Push(size: nat, result: FlowReturn)

  /** The outcome of a streaming call: the flow result returned to the host
      and the interactions it performed. */
  datatype Run = Run(result: FlowReturn, events: seq<Event>)

  /** The engine encode calls of a trace, in order. */
  function Encodes(evs: seq<Event>): (cs: seq<Event>)
    ensures |cs| <= |evs|
    ensures forall i :: 0 <= i < |cs| ==> cs[i].Encode?
  {
    if evs == [] then []
    else (if evs[0].Encode? then [evs[0]] else []) + Encodes(evs[1..])
  }

  /** The sizes of the frames pushed downstream, in order. */
  function PushSizes(evs: seq<Event>): (ps: seq<nat>)
    ensures |ps| <= |evs|
  {
    if evs == [] then []
    else (if evs[0].Push? then [evs[0].size] else []) + PushSizes(evs[1..])
  }

  /** The sink's answers to the frames pushed, in order. */
  function PushResults(evs: seq<Event>): (rs: seq<FlowReturn>)
    ensures |rs| == |PushSizes(evs)|
  {
    if evs == [] then []
    else (if evs[0].Push? then [evs[0].result] else []) + PushResults(evs[1..])
  }

  /** The total size of the frames the sink accepted. */
  function OkBytes(evs: seq<Event>): nat
  {
    if evs == [] then 0
    else (if evs[0].Push? && evs[0].result == Ok then evs[0].size else 0) + OkBytes(evs[1..])
  }

  /** The engine answers in `s` that produced output, in order. */
  function Positives(s: seq<int>): (p: seq<nat>)
    ensures |p| <= |s|
    ensures forall i :: 0 <= i < |p| ==> p[i] > 0
  {
    if s == [] then []
    else (if s[0] > 0 then [s[0] as nat] else []) + Positives(s[1..])
  }

  lemma {:induction false} EncodesAppend(a: seq<Event>, b: seq<Event>)
    ensures Encodes(a + b) == Encodes(a) + Encodes(b)
    decreases |a|
  {
    if a != [] {
      assert (a + b)[1..] == a[1..] + b;
      EncodesAppend(a[1..], b);
    } else {
      assert a + b == b;
    }
  }

  lemma {:induction false} PushSizesAppend(a: seq<Event>, b: seq<Event>)
    ensures PushSizes(a + b) == PushSizes(a) + PushSizes(b)
    decreases |a|
  {
    if a != [] {
      assert (a + b)[1..] == a[1..] + b;
      PushSizesAppend(a[1..], b);
    } else {
      assert a + b == b;
    }
  }

  lemma {:induction false} PushResultsAppend(a: seq<Event>, b: seq<Event>)
    ensures PushResults(a + b) == PushResults(a) + PushResults(b)
    decreases |a|
  {
    if a != [] {
      assert (a + b)[1..] == a[1..] + b;
      PushSizesAppend(a, b);
      PushResultsAppend(a[1..], b);
    } else {
      assert a + b == b;
    }
  }

  lemma {:induction false} OkBytesAppend(a: seq<Event>, b: seq<Event>)
    ensures OkBytes(a + b) == OkBytes(a) + OkBytes(b)
    decreases |a|
  {
    if a != [] {
      assert (a + b)[1..] == a[1..] + b;
      OkBytesAppend(a[1..], b);
    } else {
      assert a + b == b;
    }
  }

  /** The push filters distribute over concatenation of traces. */
  lemma PushesAppend(a: seq<Event>, b: seq<Event>)
    ensures PushSizes(a + b) == PushSizes(a) + PushSizes(b)
    ensures PushResults(a + b) == PushResults(a) + PushResults(b)
    ensures OkBytes(a + b) == OkBytes(a) + OkBytes(b)
  {
    PushSizesAppend(a, b);
    PushResultsAppend(a, b);
    OkBytesAppend(a, b);
  }

  /** The effect on the accepted byte count of recording one more event. */
  lemma OkBytesSnoc(evs: seq<Event>, e: Event)
    ensures OkBytes(evs + [e]) == OkBytes(evs) + (if e.Push? && e.result == Ok then e.size else 0)
  {
    PushesAppend(evs, [e]);
    assert [e][1..] == [];
  }
}

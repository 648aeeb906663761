/** The chunking loop of `gst_shinemp3enc_handle_frame`: a buffer is cut into
    complete passes of `samplesPerPass` sample frames, each handed to the
    engine, and each non-empty engine answer is pushed downstream at once. */
module Chunking {
  import opened Gst
  import opened ShineLib
  import opened Trace

  /** Complete sample frames in a buffer of `size` bytes of 16-bit samples
      interleaved over `channels` channels; a trailing partial frame is
      truncated by the integer division. */
  function SampleFrames(size: uint32, channels: int): (r: nat)
    requires 1 <= channels <= 2
    ensures r * (2 * channels) <= size < (r + 1) * (2 * channels)
  {
    size / (2 * channels)
  }

  lemma MulPos(d: int, m: int)
    requires 0 < d && 1 <= m
    ensures d <= d * m
  {
  }

  /** Euclidean division has exactly one quotient. */
  lemma DivUnique(a: int, d: int, q: int, r: int)
    requires 0 < d && 0 <= r < d && a == d * q + r
    ensures a / d == q
  {
    var q0, r0 := a / d, a % d;
    assert a == d * q0 + r0;
    if q0 < q {
      MulPos(d, q - q0);
      assert false;
    } else if q < q0 {
      MulPos(d, q0 - q);
      assert false;
    }
  }

  /** Taking one pass off the remaining samples leaves one pass fewer. */
  lemma DivStep(a: int, d: int)
    requires 0 < d <= a
    ensures (a - d) / d == a / d - 1
  {
    var q, r := a / d, a % d;
    assert a - d == d * (q - 1) + r;
    DivUnique(a - d, d, q - 1, r);
  }

  /** `left` complete passes of `d` sample frames remain in `n`. */
  ghost predicate PassesLeft(n: int, d: Pos, left: int)
  {
    0 <= n && n / d == left
  }

  lemma PassesLeftStep(n: int, d: Pos, left: int)
    requires PassesLeft(n, d, left) && d <= n
    ensures 1 <= left && PassesLeft(n - d, d, left - 1)
  {
    DivStep(n, d);
  }

  lemma PassesLeftDone(n: int, d: Pos, left: int)
    requires PassesLeft(n, d, left) && n < d
    ensures left == 0
  {
    DivUnique(n, d, 0, n);
  }

  /** The loop from the state where `passes` complete passes remain, the
      read offset is `data` elements into the buffer, and `k` encode calls
      and `j` pushes have been made, as the source runs it: the encode call
      reads the pass at `data` and the engine answers `enc[k]`; a positive
      answer is pushed and the sink answers `sink[j]`; a sink answer other
      than `Ok` ends the loop; otherwise the offset advances by `stride`. */
  function Chunk(passes: nat, data: nat, stride: nat, enc: seq<int>, sink: seq<FlowReturn>, k: nat, j: nat): Run
    requires j <= k && k + passes <= |enc| && k + passes <= |sink|
    decreases passes
  {
    if passes == 0 then Run(Ok, [])
    else
      var call := Encode(data, enc[k]);
      if enc[k] > 0 then
        if sink[j] != Ok then Run(sink[j], [call, Push(enc[k], sink[j])])
        else
          var rest := Chunk(passes - 1, data + stride, stride, enc, sink, k + 1, j + 1);
          Run(rest.result, [call, Push(enc[k], Ok)] + rest.events)
      else
        var rest := Chunk(passes - 1, data + stride, stride, enc, sink, k + 1, j);
        Run(rest.result, [call] + rest.events)
  }

  /** The events of one step of the loop that did not end it. */
  function StepEvents(data: nat, mp3Size: int): seq<Event>
  {
    if mp3Size > 0 then [Encode(data, mp3Size), Push(mp3Size, Ok)] else [Encode(data, mp3Size)]
  }

  /** One step of the loop that does not end it: its events, then the rest. */
  lemma ChunkStep(p: nat, data: nat, stride: nat, enc: seq<int>, sink: seq<FlowReturn>, k: nat, j: nat)
    requires j <= k && k + p <= |enc| && k + p <= |sink|
    requires p > 0 && (enc[k] > 0 ==> sink[j] == Ok)
    ensures var j' := if enc[k] > 0 then j + 1 else j;
            var rest := Chunk(p - 1, data + stride, stride, enc, sink, k + 1, j');
            Chunk(p, data, stride, enc, sink, k, j) == Run(rest.result, StepEvents(data, enc[k]) + rest.events)
  {
  }

  /** The loop invariant of `handle_frame`, from the state after `k` encode
      calls and `j` pushes with the read offset at `data`: the events so far
      followed by the rest of the loop make up the whole run. */
  ghost predicate LoopState(whole: Run, passes: nat, data: nat, stride: nat, enc: seq<int>, sink: seq<FlowReturn>, k: nat, j: nat, events: seq<Event>)
  {
    j <= k <= passes && passes <= |enc| && passes <= |sink| &&
    var rest := Chunk(passes - k, data, stride, enc, sink, k, j);
    whole == Run(rest.result, events + rest.events)
  }

  lemma LoopStart(passes: nat, stride: nat, enc: seq<int>, sink: seq<FlowReturn>)
    requires passes <= |enc| && passes <= |sink|
    ensures LoopState(Chunk(passes, 0, stride, enc, sink, 0, 0), passes, 0, stride, enc, sink, 0, 0, [])
  {
    assert [] + Chunk(passes, 0, stride, enc, sink, 0, 0).events == Chunk(passes, 0, stride, enc, sink, 0, 0).events;
  }

  /** One step that does not end the loop keeps the invariant. */
  lemma AdvanceRun(whole: Run, passes: nat, data: nat, stride: nat, enc: seq<int>, sink: seq<FlowReturn>, k: nat, j: nat, events: seq<Event>, after: seq<Event>)
    requires LoopState(whole, passes, data, stride, enc, sink, k, j, events) && k < passes
    requires enc[k] > 0 ==> sink[j] == Ok
    requires after == events + StepEvents(data, enc[k])
    ensures LoopState(whole, passes, data + stride, stride, enc, sink, k + 1, if enc[k] > 0 then j + 1 else j, after)
  {
    ChunkStep(passes - k, data, stride, enc, sink, k, j);
    var rest := Chunk(passes - k - 1, data + stride, stride, enc, sink, k + 1, if enc[k] > 0 then j + 1 else j);
    assert events + (StepEvents(data, enc[k]) + rest.events) == after + rest.events;
  }

  /** Appending one step's events the way the loop does appends
      `StepEvents`, and adds the pushed frame, if any, to the accepted bytes. */
  lemma AppendStep(events: seq<Event>, data: nat, mp3Size: int)
    ensures mp3Size > 0 ==> events + [Encode(data, mp3Size)] + [Push(mp3Size, Ok)] == events + StepEvents(data, mp3Size)
    ensures mp3Size <= 0 ==> events + [Encode(data, mp3Size)] == events + StepEvents(data, mp3Size)
    ensures OkBytes(events + StepEvents(data, mp3Size)) == OkBytes(events) + if mp3Size > 0 then mp3Size else 0
  {
    OkBytesSnoc(events, Encode(data, mp3Size));
    if mp3Size > 0 {
      assert events + [Encode(data, mp3Size)] + [Push(mp3Size, Ok)] == events + StepEvents(data, mp3Size);
      OkBytesSnoc(events + [Encode(data, mp3Size)], Push(mp3Size, Ok));
    }
  }

  /** A refused push ends the loop with that refusal as the result. */
  lemma RefusedRun(whole: Run, passes: nat, data: nat, stride: nat, enc: seq<int>, sink: seq<FlowReturn>, k: nat, j: nat, events: seq<Event>, after: seq<Event>)
    requires LoopState(whole, passes, data, stride, enc, sink, k, j, events) && k < passes
    requires enc[k] > 0 && sink[j] != Ok
    requires after == events + [Encode(data, enc[k])] + [Push(enc[k], sink[j])]
    ensures whole == Run(sink[j], after)
    ensures OkBytes(after) == OkBytes(events)
  {
    assert events + [Encode(data, enc[k]), Push(enc[k], sink[j])] == after;
    OkBytesSnoc(events, Encode(data, enc[k]));
    OkBytesSnoc(events + [Encode(data, enc[k])], Push(enc[k], sink[j]));
  }

  /** When every pass has been made the events so far are the whole run. */
  lemma LoopDone(whole: Run, passes: nat, data: nat, stride: nat, enc: seq<int>, sink: seq<FlowReturn>, k: nat, j: nat, events: seq<Event>)
    requires LoopState(whole, passes, data, stride, enc, sink, k, j, events) && k == passes
    ensures whole == Run(Ok, events)
  {
    assert events + [] == events;
  }

  /** The loop of `handle_frame` over the `numSamples` sample frames of one
      buffer: while a complete pass remains it is handed to the engine
      (answers `enc`) at the current offset, a non-empty answer is pushed
      (answers `sink`) and a refused push ends the loop; the offset advances
      by `stride` elements per pass. `total` is the byte count of the pushed
      frames in a 32-bit unsigned accumulator. */
  method EncodePasses(numSamples0: nat, samplesPerPass: Pos, stride: nat, enc: seq<int>, sink: seq<FlowReturn>)
    returns (result: FlowReturn, events: seq<Event>, total: uint32)
    requires numSamples0 / samplesPerPass <= |enc| && numSamples0 / samplesPerPass <= |sink|
    ensures Run(result, events) == Chunk(numSamples0 / samplesPerPass, 0, stride, enc, sink, 0, 0)
    ensures total == Wrap32(OkBytes(events))
  {
    ghost var passes := numSamples0 / samplesPerPass;
    ghost var whole := Chunk(passes, 0, stride, enc, sink, 0, 0);
    var numSamples := numSamples0;
    var data: nat, k: nat, j: nat := 0, 0, 0;
    result, events, total := Ok, [], 0;
    LoopStart(passes, stride, enc, sink);
    while numSamples >= samplesPerPass
      invariant k <= passes && PassesLeft(numSamples, samplesPerPass, passes - k)
      invariant LoopState(whole, passes, data, stride, enc, sink, k, j, events)
      invariant result == Ok
      invariant total == Wrap32(OkBytes(events))
      decreases numSamples
    {
      PassesLeftStep(numSamples, samplesPerPass, passes - k);
      var mp3Size := enc[k];
      ghost var before := events;
      events := events + [Encode(data, mp3Size)];
      if mp3Size > 0 {
        result := sink[j];
        events := events + [Push(mp3Size, result)];
        if result != Ok {
          RefusedRun(whole, passes, data, stride, enc, sink, k, j, before, events);
          break;
        }
        AppendStep(before, data, mp3Size);
        AdvanceRun(whole, passes, data, stride, enc, sink, k, j, before, events);
        Wrap32Add(OkBytes(before), mp3Size);
        total := Wrap32(total + mp3Size);
        j := j + 1;
      } else {
        AppendStep(before, data, mp3Size);
        AdvanceRun(whole, passes, data, stride, enc, sink, k, j, before, events);
      }
      data := data + stride;
      numSamples := numSamples - samplesPerPass;
      k := k + 1;
    }
    if result == Ok {
      PassesLeftDone(numSamples, samplesPerPass, passes - k);
      LoopDone(whole, passes, data, stride, enc, sink, k, j, events);
    }
  }

  /** Adding to a wrapped accumulator wraps the exact sum. */
  lemma Wrap32Add(a: nat, x: int)
    ensures Wrap32(Wrap32(a) + x) == Wrap32(a + x)
  {
    var q := a / Uint32Modulus;
    assert a == q * Uint32Modulus + a % Uint32Modulus;
    var t := (a % Uint32Modulus) + x;
    assert a + x == t + q * Uint32Modulus;
    DivUnique((a + x), Uint32Modulus, (t / Uint32Modulus) + q, t % Uint32Modulus);
  }

  /** The encode calls made: `Encode` events for the first passes in order,
      the first at `data`, each `stride` elements after the one before, each
      answered by the next engine answer; never more calls than passes, and
      one per pass when the loop ends without a sink error. */
  ghost predicate CallsFrom(cs: seq<Event>, data: nat, stride: nat, enc: seq<int>, k: nat)
  {
    k + |cs| <= |enc| &&
    (forall i :: 0 <= i < |cs| ==> cs[i].Encode? && cs[i].mp3Size == enc[k + i]) &&
    (|cs| > 0 ==> cs[0].offset == data) &&
    (forall i :: 0 < i < |cs| ==> cs[i].offset == cs[i - 1].offset + stride)
  }

  /** The encode calls of run `r` of `p` passes from offset `data`: at most
      one per pass, all of them when it returns `Ok`, consecutive strides
      apart, answered by the engine answers from `k` on. */
  ghost predicate CallsOf(r: Run, p: nat, data: nat, stride: nat, enc: seq<int>, k: nat)
  {
    var cs := Encodes(r.events);
    |cs| <= p && CallsFrom(cs, data, stride, enc, k) && (r.result == Ok ==> |cs| == p)
  }

  lemma {:induction false} ChunkEncodes(p: nat, data: nat, stride: nat, enc: seq<int>, sink: seq<FlowReturn>, k: nat, j: nat)
    requires j <= k && k + p <= |enc| && k + p <= |sink|
    ensures CallsOf(Chunk(p, data, stride, enc, sink, k, j), p, data, stride, enc, k)
    decreases p
  {
    if p > 0 {
      if enc[k] > 0 && sink[j] != Ok {
        EncodesRefused(p, data, stride, enc, sink, k, j);
      } else {
        var j' := if enc[k] > 0 then j + 1 else j;
        ChunkEncodes(p - 1, data + stride, stride, enc, sink, k + 1, j');
        EncodesAdvance(p, data, stride, enc, sink, k, j);
      }
    }
  }

  lemma EncodesRefused(p: nat, data: nat, stride: nat, enc: seq<int>, sink: seq<FlowReturn>, k: nat, j: nat)
    requires j <= k && k + p <= |enc| && k + p <= |sink|
    requires p > 0 && enc[k] > 0 && sink[j] != Ok
    ensures CallsOf(Chunk(p, data, stride, enc, sink, k, j), p, data, stride, enc, k)
  {
    var r := Chunk(p, data, stride, enc, sink, k, j);
    assert r.events == [Encode(data, enc[k]), Push(enc[k], sink[j])];
    RefusedFilters(data, enc[k], sink[j]);
    assert CallsFrom([Encode(data, enc[k])], data, stride, enc, k);
  }

  lemma EncodesAdvance(p: nat, data: nat, stride: nat, enc: seq<int>, sink: seq<FlowReturn>, k: nat, j: nat)
    requires j <= k && k + p <= |enc| && k + p <= |sink|
    requires p > 0 && (enc[k] > 0 ==> sink[j] == Ok)
    requires var j' := if enc[k] > 0 then j + 1 else j;
             CallsOf(Chunk(p - 1, data + stride, stride, enc, sink, k + 1, j'), p - 1, data + stride, stride, enc, k + 1)
    ensures CallsOf(Chunk(p, data, stride, enc, sink, k, j), p, data, stride, enc, k)
  {
    var j' := if enc[k] > 0 then j + 1 else j;
    var r := Chunk(p, data, stride, enc, sink, k, j);
    var rest := Chunk(p - 1, data + stride, stride, enc, sink, k + 1, j');
    ChunkStep(p, data, stride, enc, sink, k, j);
    EncodesAppend(StepEvents(data, enc[k]), rest.events);
    StepFilters(data, enc[k]);
    CallsCons(Encodes(r.events), Encodes(rest.events), data, stride, enc, k);
  }

  lemma CallsCons(cs: seq<Event>, cs': seq<Event>, data: nat, stride: nat, enc: seq<int>, k: nat)
    requires k + 1 + |cs'| <= |enc| && cs == [Encode(data, enc[k])] + cs'
    requires CallsFrom(cs', data + stride, stride, enc, k + 1)
    ensures CallsFrom(cs, data, stride, enc, k)
  {
    assert forall i :: 0 < i < |cs| ==> cs[i] == cs'[i - 1];
  }

  /** The calls of `CallsFrom` read the passes at `data + i * stride`, so
      consecutive passes neither overlap nor leave a gap. */
  lemma {:induction false} CallOffsets(cs: seq<Event>, data: nat, stride: nat, enc: seq<int>, k: nat, i: nat)
    requires CallsFrom(cs, data, stride, enc, k) && i < |cs|
    ensures cs[i] == Encode(data + i * stride, enc[k + i])
  {
    if i > 0 {
      CallOffsets(cs, data, stride, enc, k, i - 1);
      assert data + (i - 1) * stride + stride == data + i * stride;
    }
  }

  /** Encode call i reads the pass of `stride` elements at element
      `i * stride`, is answered by `enc[i]`, and that pass ends within the
      first `bound` elements. */
  ghost predicate PassesRead(cs: seq<Event>, stride: nat, enc: seq<int>, bound: int)
  {
    |cs| <= |enc| &&
    forall i :: 0 <= i < |cs| ==> cs[i] == Encode(i * stride, enc[i]) && (i + 1) * stride <= bound
  }

  /** The loop over `p` passes from offset 0 makes at most `p` calls, call i
      reads the pass at `i * stride`, and when the `p` passes fit in `bound`
      elements every pass read ends within it. */
  lemma ChunkCallsWithin(p: nat, stride: nat, enc: seq<int>, sink: seq<FlowReturn>, bound: int)
    requires p <= |enc| && p <= |sink| && p * stride <= bound
    ensures var cs := Encodes(Chunk(p, 0, stride, enc, sink, 0, 0).events);
            |cs| <= p && PassesRead(cs, stride, enc, bound)
  {
    ChunkEncodes(p, 0, stride, enc, sink, 0, 0);
    CallsWithin(Encodes(Chunk(p, 0, stride, enc, sink, 0, 0).events), stride, enc, p, bound);
  }

  /** Calls from offset 0 read the passes at `i * stride`, and when `p`
      passes fit in `bound` elements every pass read ends within it. */
  lemma CallsWithin(cs: seq<Event>, stride: nat, enc: seq<int>, p: nat, bound: int)
    requires CallsFrom(cs, 0, stride, enc, 0) && |cs| <= p && p * stride <= bound
    ensures PassesRead(cs, stride, enc, bound)
  {
    forall i | 0 <= i < |cs|
      ensures cs[i] == Encode(i * stride, enc[i]) && (i + 1) * stride <= bound
    {
      CallOffsets(cs, 0, stride, enc, 0, i);
      PassEnds(i, p, stride, bound);
    }
  }

  /** Pass `i` of `p` passes of `stride` elements ends within `bound` when
      all `p` do. */
  lemma PassEnds(i: nat, p: nat, stride: nat, bound: int)
    requires i < p && p * stride <= bound
    ensures (i + 1) * stride <= bound
  {
    MulMono(i + 1, p, stride);
  }

  lemma MulMono(a: int, b: int, c: int)
    requires 0 <= a <= b && 0 <= c
    ensures a * c <= b * c
  {
  }

  /** Unfolding `Positives` on a slice of the engine answers. */
  lemma PositivesSlice(enc: seq<int>, k: nat, hi: nat)
    requires k < hi <= |enc|
    ensures Positives(enc[k..hi]) == (if enc[k] > 0 then [enc[k] as nat] else []) + Positives(enc[k + 1..hi])
  {
    assert enc[k..hi][0] == enc[k];
    assert enc[k..hi][1..] == enc[k + 1..hi];
  }

  /** The frames pushed are exactly the positive engine answers of the calls
      made, in call order, and the sink's answers to them are the next
      answers of `sink`, consumed in order. */
  ghost predicate FramesMatch(r: Run, enc: seq<int>, sink: seq<FlowReturn>, k: nat, j: nat)
  {
    var e := |Encodes(r.events)|;
    var m := |PushSizes(r.events)|;
    k + e <= |enc| && j + m <= |sink| &&
    PushSizes(r.events) == Positives(enc[k..k + e]) &&
    PushResults(r.events) == sink[j..j + m]
  }

  lemma {:induction false} ChunkFrames(p: nat, data: nat, stride: nat, enc: seq<int>, sink: seq<FlowReturn>, k: nat, j: nat)
    requires j <= k && k + p <= |enc| && k + p <= |sink|
    ensures FramesMatch(Chunk(p, data, stride, enc, sink, k, j), enc, sink, k, j)
    decreases p
  {
    if p > 0 {
      if enc[k] > 0 && sink[j] != Ok {
        FramesRefused(Chunk(p, data, stride, enc, sink, k, j), data, enc, sink, k, j);
      } else {
        var j' := if enc[k] > 0 then j + 1 else j;
        ChunkFrames(p - 1, data + stride, stride, enc, sink, k + 1, j');
        FramesAdvance(p, data, stride, enc, sink, k, j);
      }
    }
  }

  /** A step that does not end the loop, followed by a rest whose frames
      match, gives a run whose frames match. */
  lemma FramesAdvance(p: nat, data: nat, stride: nat, enc: seq<int>, sink: seq<FlowReturn>, k: nat, j: nat)
    requires j <= k && k + p <= |enc| && k + p <= |sink|
    requires p > 0 && (enc[k] > 0 ==> sink[j] == Ok)
    requires var j' := if enc[k] > 0 then j + 1 else j;
             FramesMatch(Chunk(p - 1, data + stride, stride, enc, sink, k + 1, j'), enc, sink, k + 1, j')
    ensures FramesMatch(Chunk(p, data, stride, enc, sink, k, j), enc, sink, k, j)
  {
    var j' := if enc[k] > 0 then j + 1 else j;
    ChunkStep(p, data, stride, enc, sink, k, j);
    var rest := Chunk(p - 1, data + stride, stride, enc, sink, k + 1, j');
    StepTrace(data, enc[k], rest.events);
    FramesStep(Chunk(p, data, stride, enc, sink, k, j), rest, enc, sink, k, j);
  }

  lemma FramesRefused(r: Run, data: nat, enc: seq<int>, sink: seq<FlowReturn>, k: nat, j: nat)
    requires k < |enc| && j < |sink| && enc[k] > 0
    requires r.events == [Encode(data, enc[k]), Push(enc[k], sink[j])]
    ensures FramesMatch(r, enc, sink, k, j)
  {
    RefusedFilters(data, enc[k], sink[j]);
    PositivesSlice(enc, k, k + 1);
    assert sink[j..j + 1] == [sink[j]];
  }

  /** What the trace filters keep of a refused step. */
  lemma RefusedFilters(data: nat, mp3Size: nat, res: FlowReturn)
    requires mp3Size > 0
    ensures var evs := [Encode(data, mp3Size), Push(mp3Size, res)];
            Encodes(evs) == [Encode(data, mp3Size)] && PushSizes(evs) == [mp3Size] && PushResults(evs) == [res]
  {
    var evs := [Encode(data, mp3Size), Push(mp3Size, res)];
    assert evs[1..] == [Push(mp3Size, res)];
    assert evs[1..][1..] == [];
  }

  /** What the trace filters keep of a step that did not end the loop. */
  lemma StepFilters(data: nat, mp3Size: int)
    ensures Encodes(StepEvents(data, mp3Size)) == [Encode(data, mp3Size)]
    ensures PushSizes(StepEvents(data, mp3Size)) == if mp3Size > 0 then [mp3Size as nat] else []
    ensures PushResults(StepEvents(data, mp3Size)) == if mp3Size > 0 then [Ok] else []
  {
    if mp3Size > 0 {
      RefusedFilters(data, mp3Size, Ok);
    } else {
      assert StepEvents(data, mp3Size)[1..] == [];
    }
  }

  /** The trace filters of one step that did not end the loop, followed by
      the rest of the run. */
  lemma StepTrace(data: nat, mp3Size: int, rest: seq<Event>)
    ensures var evs := StepEvents(data, mp3Size) + rest;
            |Encodes(evs)| == 1 + |Encodes(rest)| &&
            PushSizes(evs) == (if mp3Size > 0 then [mp3Size as nat] else []) + PushSizes(rest) &&
            PushResults(evs) == (if mp3Size > 0 then [Ok] else []) + PushResults(rest)
  {
    EncodesAppend(StepEvents(data, mp3Size), rest);
    PushesAppend(StepEvents(data, mp3Size), rest);
    StepFilters(data, mp3Size);
  }

  /** Prepending one step that did not end the loop keeps `FramesMatch`. */
  lemma FramesStep(r: Run, rest: Run, enc: seq<int>, sink: seq<FlowReturn>, k: nat, j: nat)
    requires k < |enc| && j < |sink| && (enc[k] > 0 ==> sink[j] == Ok)
    requires |Encodes(r.events)| == 1 + |Encodes(rest.events)|
    requires PushSizes(r.events) == (if enc[k] > 0 then [enc[k] as nat] else []) + PushSizes(rest.events)
    requires PushResults(r.events) == (if enc[k] > 0 then [Ok] else []) + PushResults(rest.events)
    requires FramesMatch(rest, enc, sink, k + 1, if enc[k] > 0 then j + 1 else j)
    ensures FramesMatch(r, enc, sink, k, j)
  {
    FramesCons(enc, sink, k, k + 1 + |Encodes(rest.events)|, j, PushSizes(rest.events), PushResults(rest.events));
  }

  /** Prepending one step's frame (if any) to the frames of the rest. */
  lemma FramesCons(enc: seq<int>, sink: seq<FlowReturn>, k: nat, hi: nat, j: nat, ps': seq<nat>, rs': seq<FlowReturn>)
    requires k < hi <= |enc|
    requires ps' == Positives(enc[k + 1..hi])
    requires var j' := if enc[k] > 0 then j + 1 else j;
             j' + |ps'| <= |sink| && rs' == sink[j'..j' + |ps'|]
    requires enc[k] > 0 ==> sink[j] == Ok
    ensures var ps := (if enc[k] > 0 then [enc[k] as nat] else []) + ps';
            ps == Positives(enc[k..hi]) &&
            j + |ps| <= |sink| &&
            (if enc[k] > 0 then [Ok] else []) + rs' == sink[j..j + |ps|]
  {
    PositivesSlice(enc, k, hi);
    if enc[k] > 0 {
      assert sink[j..j + 1 + |ps'|] == [sink[j]] + sink[j + 1..j + 1 + |ps'|];
    }
  }

  /** A run returns `Ok` exactly when every push it made was accepted;
      otherwise it returns the first refusal, every earlier push was
      accepted, and that refused push is the last interaction of the call,
      so no encode call follows it. */
  ghost predicate EndsAtFirstRefusal(r: Run)
  {
    var rs := PushResults(r.events);
    (r.result == Ok <==> forall i :: 0 <= i < |rs| ==> rs[i] == Ok) &&
    (r.result != Ok ==>
       |rs| > 0 && rs[|rs| - 1] == r.result &&
       (forall i :: 0 <= i < |rs| - 1 ==> rs[i] == Ok) &&
       r.events[|r.events| - 1] == Push(PushSizes(r.events)[|rs| - 1], r.result))
  }

  lemma {:induction false} ChunkResult(p: nat, data: nat, stride: nat, enc: seq<int>, sink: seq<FlowReturn>, k: nat, j: nat)
    requires j <= k && k + p <= |enc| && k + p <= |sink|
    ensures EndsAtFirstRefusal(Chunk(p, data, stride, enc, sink, k, j))
    decreases p
  {
    var r := Chunk(p, data, stride, enc, sink, k, j);
    if p > 0 {
      if enc[k] > 0 && sink[j] != Ok {
        assert r.events == [Encode(data, enc[k]), Push(enc[k], sink[j])];
        assert PushResults(r.events) == [sink[j]];
        assert PushResults(r.events)[0] != Ok;
        assert PushSizes(r.events) == [enc[k]];
      } else {
        var j' := if enc[k] > 0 then j + 1 else j;
        ChunkStep(p, data, stride, enc, sink, k, j);
        ChunkResult(p - 1, data + stride, stride, enc, sink, k + 1, j');
        ResultStep(r, Chunk(p - 1, data + stride, stride, enc, sink, k + 1, j'), data, enc[k]);
      }
    }
  }

  /** Prepending one step that did not end the loop keeps `EndsAtFirstRefusal`. */
  lemma ResultStep(r: Run, rest: Run, data: nat, mp3Size: int)
    requires r == Run(rest.result, StepEvents(data, mp3Size) + rest.events)
    requires EndsAtFirstRefusal(rest)
    ensures EndsAtFirstRefusal(r)
  {
    var prefix := StepEvents(data, mp3Size);
    PushesAppend(prefix, rest.events);
    StepFilters(data, mp3Size);
    ResultsCons(PushResults(prefix), PushResults(rest.events), r.result);
    if r.result != Ok {
      LastOfAppend(prefix, rest.events);
      LastOfAppend(PushSizes(prefix), PushSizes(rest.events));
    }
  }

  /** Accepted pushes before a run of answers do not change which answer, if
      any, is the first refusal. */
  lemma ResultsCons(pre: seq<FlowReturn>, rs': seq<FlowReturn>, res: FlowReturn)
    requires forall i :: 0 <= i < |pre| ==> pre[i] == Ok
    requires res == Ok <==> forall i :: 0 <= i < |rs'| ==> rs'[i] == Ok
    requires res != Ok ==> |rs'| > 0 && rs'[|rs'| - 1] == res && forall i :: 0 <= i < |rs'| - 1 ==> rs'[i] == Ok
    ensures var rs := pre + rs';
            (res == Ok <==> forall i :: 0 <= i < |rs| ==> rs[i] == Ok) &&
            (res != Ok ==> |rs| > 0 && rs[|rs| - 1] == res && forall i :: 0 <= i < |rs| - 1 ==> rs[i] == Ok)
  {
    var rs := pre + rs';
    if res != Ok {
      assert rs[|rs| - 1] == rs'[|rs'| - 1];
      assert !(rs[|rs| - 1] == Ok);
    } else {
      forall i | 0 <= i < |rs| ensures rs[i] == Ok {
        if i >= |pre| { assert rs[i] == rs'[i - |pre|]; }
      }
    }
  }

  lemma LastOfAppend<T>(a: seq<T>, b: seq<T>)
    requires |b| > 0
    ensures (a + b)[|a + b| - 1] == b[|b| - 1]
  {
  }

  /** The loop talks only to the engine's encode call and the sink, and
      pushes each frame at once: a push comes straight after the encode call
      whose answer it carries, and every encode call with a positive answer
      is followed straight away by the push of that answer. */
  ghost predicate PushedAtOnce(evs: seq<Event>)
  {
    (forall t :: 0 <= t < |evs| ==> evs[t].Encode? || evs[t].Push?) &&
    (forall t :: 0 <= t < |evs| && evs[t].Push? ==>
       0 < t && evs[t - 1].Encode? && evs[t - 1].mp3Size == evs[t].size) &&
    (forall t :: 0 <= t < |evs| && evs[t].Encode? && evs[t].mp3Size > 0 ==>
       t + 1 < |evs| && evs[t + 1].Push? && evs[t + 1].size == evs[t].mp3Size)
  }

  lemma PushedAtOnceAppend(a: seq<Event>, b: seq<Event>)
    requires PushedAtOnce(a) && PushedAtOnce(b)
    ensures PushedAtOnce(a + b)
  {
    var evs := a + b;
    forall t | |a| <= t < |evs|
      ensures evs[t] == b[t - |a|]
    {
    }
    forall t | 0 <= t < |evs| && evs[t].Push?
      ensures 0 < t && evs[t - 1].Encode? && evs[t - 1].mp3Size == evs[t].size
    {
      if t >= |a| {
        assert b[t - |a|].Push?;
      }
    }
    forall t | 0 <= t < |evs| && evs[t].Encode? && evs[t].mp3Size > 0
      ensures t + 1 < |evs| && evs[t + 1].Push? && evs[t + 1].size == evs[t].mp3Size
    {
      if t >= |a| {
        assert b[t - |a|].Encode?;
      }
    }
  }

  lemma {:induction false} ChunkPushedAtOnce(p: nat, data: nat, stride: nat, enc: seq<int>, sink: seq<FlowReturn>, k: nat, j: nat)
    requires j <= k && k + p <= |enc| && k + p <= |sink|
    ensures PushedAtOnce(Chunk(p, data, stride, enc, sink, k, j).events)
    decreases p
  {
    if p > 0 {
      if enc[k] > 0 && sink[j] != Ok {
        assert Chunk(p, data, stride, enc, sink, k, j).events == [Encode(data, enc[k]), Push(enc[k], sink[j])];
      } else {
        var j' := if enc[k] > 0 then j + 1 else j;
        ChunkPushedAtOnce(p - 1, data + stride, stride, enc, sink, k + 1, j');
        PushedAdvance(p, data, stride, enc, sink, k, j);
      }
    }
  }

  lemma PushedAdvance(p: nat, data: nat, stride: nat, enc: seq<int>, sink: seq<FlowReturn>, k: nat, j: nat)
    requires j <= k && k + p <= |enc| && k + p <= |sink|
    requires p > 0 && (enc[k] > 0 ==> sink[j] == Ok)
    requires var j' := if enc[k] > 0 then j + 1 else j;
             PushedAtOnce(Chunk(p - 1, data + stride, stride, enc, sink, k + 1, j').events)
    ensures PushedAtOnce(Chunk(p, data, stride, enc, sink, k, j).events)
  {
    var j' := if enc[k] > 0 then j + 1 else j;
    ChunkStep(p, data, stride, enc, sink, k, j);
    PushedAtOnceAppend(StepEvents(data, enc[k]), Chunk(p - 1, data + stride, stride, enc, sink, k + 1, j').events);
  }

  /** When the sink accepts every frame, the loop makes one encode call per
      pass and returns `Ok`. */
  lemma {:induction false} ChunkAllAccepted(p: nat, data: nat, stride: nat, enc: seq<int>, sink: seq<FlowReturn>, k: nat, j: nat)
    requires j <= k && k + p <= |enc| && k + p <= |sink|
    requires forall i :: j <= i < j + p ==> sink[i] == Ok
    ensures var r := Chunk(p, data, stride, enc, sink, k, j);
            r.result == Ok && |Encodes(r.events)| == p
    decreases p
  {
    ChunkEncodes(p, data, stride, enc, sink, k, j);
    if p > 0 {
      var j' := if enc[k] > 0 then j + 1 else j;
      ChunkAllAccepted(p - 1, data + stride, stride, enc, sink, k + 1, j');
    }
  }
}

/**
 * The VAD-gated streaming recogniser. Each chunk of audio is resampled to
 * 16 kHz (one resampler per source rate, created on first use), judged
 * active or not against one of two energy thresholds (a higher one to start
 * speaking, a lower one to keep speaking), kept in a 25-chunk lookback window
 * while idle, and fed to the decoder while speaking. 25 consecutive inactive
 * chunks end the utterance with a final result; active chunks produce interim
 * results when the hypothesis changes.
 *
 * The decoder is abstract: a stream records the chunks it accepted, and the
 * hypothesis for a sequence of accepted chunks is a function given to the
 * recogniser. A chunk's energy is given with the chunk.
 */
module Asr {
  import opened Wrappers
  import opened Bytes
  import opened Pcm

  const TargetSampleRate: int := 16000
  const VadStartThreshold: real := 0.025
  const VadEndThreshold: real := 0.015
  const SilenceFramesForEndpoint: nat := 25
  const WindowBufferSize: nat := 25

  /** `ASRResult`. */
  datatype AsrResult = AsrResult(text: string, isFinal: bool)

  /**
   * A chunk of float32 audio. The output of a resampler depends on everything
   * that stream was fed before, so a resampled chunk is named by the source
   * rate, its position in that resampler's stream and the input chunk.
   */
  datatype Audio = Pcm(samples: seq<real>) | Resampled(sourceRate: int, position: nat, input: Audio)

  // ---------------------------------------------------------------------------
  // Python's str.strip()

  /** The characters Python's `str.isspace` accepts. */
  predicate IsSpace(c: char)
  {
    var n := c as int;
    || 0x09 <= n <= 0x0D || 0x1C <= n <= 0x20 || n == 0x85 || n == 0xA0 || n == 0x1680
    || 0x2000 <= n <= 0x200A || n == 0x2028 || n == 0x2029 || n == 0x202F || n == 0x205F || n == 0x3000
  }

  /** `lstrip()`: drops the leading whitespace. */
  function TrimStart(s: string): (r: string)
    ensures |r| <= |s| && r == s[|s| - |r|..]
    ensures forall k :: 0 <= k < |s| - |r| ==> IsSpace(s[k])
    ensures |r| > 0 ==> !IsSpace(r[0])
    decreases |s|
  {
    if |s| > 0 && IsSpace(s[0]) then TrimStart(s[1..]) else s
  }

  /** `rstrip()`: drops the trailing whitespace. */
  function TrimEnd(s: string): (r: string)
    ensures |r| <= |s| && r == s[..|r|]
    ensures forall k :: |r| <= k < |s| ==> IsSpace(s[k])
    ensures |r| > 0 ==> !IsSpace(r[|r| - 1])
    decreases |s|
  {
    if |s| > 0 && IsSpace(s[|s| - 1]) then TrimEnd(s[..|s| - 1]) else s
  }

  /** `strip()`. */
  function Strip(s: string): (r: string)
    ensures |r| <= |s|
    ensures |r| > 0 ==> !IsSpace(r[0]) && !IsSpace(r[|r| - 1])
  {
    var t := TrimStart(s);
    var u := TrimEnd(t);
    assert |u| > 0 ==> u[0] == t[0];
    u
  }

  /**
   * The stripped text is a contiguous piece of the input, everything around
   * it is whitespace, and it neither starts nor ends with whitespace.
   */
  lemma StripIsTrimmedSlice(s: string)
    ensures exists i, j :: 0 <= i <= j <= |s| && Strip(s) == s[i..j]
                           && (forall k :: 0 <= k < i ==> IsSpace(s[k]))
                           && (forall k :: j <= k < |s| ==> IsSpace(s[k]))
    ensures |Strip(s)| > 0 ==> !IsSpace(Strip(s)[0]) && !IsSpace(Strip(s)[|Strip(s)| - 1])
  {
    var t := TrimStart(s);
    var u := TrimEnd(t);
    var i := |s| - |t|;
    var j := i + |u|;
    assert t == s[i..] && u == t[..|u|];
    assert u == s[i..j];
    forall k | j <= k < |s| ensures IsSpace(s[k]) {
      assert s[k] == t[k - i];
    }
    if |u| > 0 {
      assert u[0] == t[0];
    }
    assert 0 <= i <= j <= |s| && Strip(s) == s[i..j];
  }

  /** A text strips to the empty string exactly when all of it is whitespace. */
  lemma StripEmptyIff(s: string)
    ensures Strip(s) == "" <==> forall k :: 0 <= k < |s| ==> IsSpace(s[k])
  {
    var t := TrimStart(s);
    if Strip(s) == "" {
      assert |t| == 0;
    } else {
      StripIsTrimmedSlice(s);
    }
  }

  /** Stripping twice is stripping once. */
  lemma StripIdempotent(s: string)
    ensures Strip(Strip(s)) == Strip(s)
  {
    var r := Strip(s);
    if |r| > 0 {
      StripIsTrimmedSlice(s);
      assert TrimStart(r) == r;
      assert TrimEnd(r) == r;
    }
  }

  // ---------------------------------------------------------------------------
  // The lookback window: `collections.deque(maxlen=25)`

  /** What a deque with maxlen 25 keeps of a sequence of appends: the last 25. */
  function Lookback(w: seq<Audio>): (r: seq<Audio>)
    ensures |r| <= WindowBufferSize
    ensures |r| == if |w| <= WindowBufferSize then |w| else WindowBufferSize
    ensures r == w[|w| - |r|..]
  {
    if |w| <= WindowBufferSize then w else w[|w| - WindowBufferSize..]
  }

  /** Truncating after every append keeps the same chunks as truncating once at the end. */
  lemma LookbackAppend(w: seq<Audio>, more: seq<Audio>)
    ensures Lookback(Lookback(w) + more) == Lookback(w + more)
  {
    var w' := Lookback(w);
    if |w + more| > WindowBufferSize {
      assert (w' + more)[|w' + more| - |Lookback(w' + more)|..] == (w + more)[|w + more| - |Lookback(w + more)|..];
    } else {
      assert w' == w;
    }
  }

  // ---------------------------------------------------------------------------
  // The recogniser's state and one call of process_audio

  /**
   * The state `process_audio` reads and writes: the speaking flag, the
   * consecutive-silence count, the utterance's peak energy, the last interim
   * text, the lookback window, and the chunks the current decoder stream has
   * accepted.
   */
  datatype AsrState = AsrState(speaking: bool, silence: nat, maxRms: real, lastPartial: string,
                               window: seq<Audio>, accepted: seq<Audio>)

  /** The state between calls. */
  predicate Inv(s: AsrState)
  {
    && s.silence < SilenceFramesForEndpoint
    && |s.window| <= WindowBufferSize
    && s.maxRms >= 0.0
    && (s.speaking ==> s.window == [])
    && (!s.speaking ==> s.silence == 0 && s.maxRms == 0.0 && s.lastPartial == "" && s.accepted == [])
  }

  /** `reset()`: a fresh decoder stream, not speaking, counters cleared; the window is kept. */
  function ResetState(s: AsrState): (t: AsrState)
    ensures t.window == s.window
    ensures Inv(t) <==> |s.window| <= WindowBufferSize
  {
    AsrState(false, 0, 0.0, "", s.window, [])
  }

  /** A second `reset()` changes nothing further. */
  lemma ResetIdempotent(s: AsrState)
    ensures ResetState(ResetState(s)) == ResetState(s)
  {
  }

  /** The two thresholds: START while idle, END while speaking. */
  function IsVoiceActive(speaking: bool, rms: real): (active: bool)
    ensures rms >= VadStartThreshold ==> active
    ensures active ==> rms >= VadEndThreshold
    ensures !speaking ==> (active <==> rms >= VadStartThreshold)
  {
    if !speaking then rms >= VadStartThreshold else rms >= VadEndThreshold
  }

  function Max(a: real, b: real): real { if a >= b then a else b }

  /**
   * Steps 2 to 5 of `process_audio`: while idle the chunk goes into the
   * window first; on onset the whole window (which ends with this chunk) goes
   * to the decoder and is cleared; an active chunk marks speaking, zeroes the
   * silence count and raises the peak energy; while speaking the chunk itself
   * goes to the decoder.
   */
  function Feed(s: AsrState, chunk: Audio, rms: real): (t: AsrState)
    ensures t.speaking <==> s.speaking || IsVoiceActive(s.speaking, rms)
    ensures t.lastPartial == s.lastPartial
    ensures t.speaking ==> |t.accepted| > |s.accepted| && t.accepted[|t.accepted| - 1] == chunk
    ensures !t.speaking ==> t == s.(window := Lookback(s.window + [chunk]))
  {
    var window := if !s.speaking then Lookback(s.window + [chunk]) else s.window;
    if IsVoiceActive(s.speaking, rms) then
      var accepted := if !s.speaking then s.accepted + window else s.accepted;
      var maxRms := if rms > s.maxRms then rms else s.maxRms;
      AsrState(true, 0, maxRms, s.lastPartial, if !s.speaking then [] else window, accepted + [chunk])
    else if s.speaking then
      s.(accepted := s.accepted + [chunk])
    else
      s.(window := window)
  }

  /**
   * Steps 6 and 7: an inactive chunk while speaking counts one more silent
   * chunk, and the 25th ends the utterance (`reset()`, and a final result if
   * the stripped hypothesis is non-empty); an active chunk yields an interim
   * result when the stripped hypothesis is non-empty and new.
   */
  function Conclude(t: AsrState, active: bool, hyp: seq<Audio> -> string): (r: (AsrState, Option<AsrResult>))
    ensures r.1.Some? ==> t.speaking && r.1.value.text == Strip(hyp(t.accepted)) && r.1.value.text != ""
    ensures r.1.Some? ==> (r.1.value.isFinal <==> !active)
    ensures r.1.Some? && r.1.value.isFinal ==> r.0 == ResetState(t)
    ensures r.1.Some? && !r.1.value.isFinal ==> r.1.value.text != t.lastPartial && r.0.lastPartial == r.1.value.text
  {
    if !active && t.speaking then
      if t.silence + 1 >= SilenceFramesForEndpoint then
        var text := Strip(hyp(t.accepted));
        (ResetState(t), if text != "" then Some(AsrResult(text, true)) else None)
      else
        (t.(silence := t.silence + 1), None)
    else if active && t.speaking then
      var text := Strip(hyp(t.accepted));
      if text != "" && text != t.lastPartial then (t.(lastPartial := text), Some(AsrResult(text, false)))
      else (t, None)
    else
      (t, None)
  }

  /**
   * One call of `process_audio` on an already resampled chunk whose energy
   * is rms; hyp is the decoder's hypothesis for what its stream accepted.
   */
  function Step(s: AsrState, chunk: Audio, rms: real, hyp: seq<Audio> -> string): (r: (AsrState, Option<AsrResult>))
    ensures r.1.Some? ==> r.1.value.text != "" && (r.1.value.isFinal <==> !IsVoiceActive(s.speaking, rms))
    ensures r.1.Some? && r.1.value.isFinal ==> s.speaking && !r.0.speaking && r.0.accepted == []
    ensures r.1.Some? && !r.1.value.isFinal ==> r.1.value.text != s.lastPartial && r.0.lastPartial == r.1.value.text
  {
    Conclude(Feed(s, chunk, rms), IsVoiceActive(s.speaking, rms), hyp)
  }

  /** Every call keeps the between-calls state invariant. */
  lemma StepPreservesInv(s: AsrState, chunk: Audio, rms: real, hyp: seq<Audio> -> string)
    requires Inv(s)
    ensures Inv(Step(s, chunk, rms, hyp).0)
  {
  }

  /**
   * Idle and below the START threshold: still idle, the chunk is appended to
   * the window (which keeps at most 25 chunks), nothing reaches the decoder
   * and there is no result.
   */
  lemma IdleQuietStep(s: AsrState, chunk: Audio, rms: real, hyp: seq<Audio> -> string)
    requires !s.speaking && rms < VadStartThreshold
    ensures Step(s, chunk, rms, hyp) == (s.(window := Lookback(s.window + [chunk])), None)
  {
  }

  /**
   * Onset: idle and at or above the START threshold. The decoder receives
   * the window with the trigger chunk at its end, and then the trigger chunk
   * once more, so its last two chunks are that chunk twice; the window is
   * emptied and the recogniser is speaking with silence 0 and peak energy
   * the larger of the old peak and this chunk's energy. An interim result
   * follows exactly when the stripped hypothesis is non-empty and differs
   * from the last one.
   */
  lemma OnsetStep(s: AsrState, chunk: Audio, rms: real, hyp: seq<Audio> -> string)
    requires !s.speaking && rms >= VadStartThreshold
    ensures var (t, r) := Step(s, chunk, rms, hyp);
            && t.speaking && t.silence == 0 && t.maxRms == Max(s.maxRms, rms)
            && t.window == []
            && t.accepted == s.accepted + Lookback(s.window + [chunk]) + [chunk]
            && |t.accepted| >= |s.accepted| + 2
            && t.accepted[|t.accepted| - 2..] == [chunk, chunk]
            && var text := Strip(hyp(t.accepted));
               (r.Some? <==> text != "" && text != s.lastPartial)
               && (r.Some? ==> r == Some(AsrResult(text, false)) && t.lastPartial == text)
  {
    var w := Lookback(s.window + [chunk]);
    assert w[|w| - 1] == chunk;
  }

  /**
   * Speaking and at or above the END threshold: still speaking, the chunk is
   * fed to the decoder, the silence count is 0 and the peak energy the larger
   * of the old peak and this chunk's.
   */
  lemma SpeakingActiveStep(s: AsrState, chunk: Audio, rms: real, hyp: seq<Audio> -> string)
    requires s.speaking && rms >= VadEndThreshold
    ensures var (t, r) := Step(s, chunk, rms, hyp);
            && t.speaking && t.silence == 0 && t.maxRms == Max(s.maxRms, rms)
            && t.accepted == s.accepted + [chunk] && t.window == s.window
            && (r.Some? ==> !r.value.isFinal)
  {
  }

  /**
   * Speaking and below the END threshold: the chunk is still fed to the
   * decoder and the silence count grows by one. Short of 25 nothing else
   * changes and there is no result; at 25 the utterance ends: a final result
   * exactly when the stripped hypothesis over everything fed (this chunk
   * included) is non-empty, and the state is `reset()`'s.
   */
  lemma SpeakingQuietStep(s: AsrState, chunk: Audio, rms: real, hyp: seq<Audio> -> string)
    requires s.speaking && rms < VadEndThreshold
    ensures var (t, r) := Step(s, chunk, rms, hyp);
            if s.silence + 1 < SilenceFramesForEndpoint then
              && r == None
              && t == s.(silence := s.silence + 1, accepted := s.accepted + [chunk])
            else
              var text := Strip(hyp(s.accepted + [chunk]));
              && t == ResetState(s)
              && (r.Some? <==> text != "")
              && (r.Some? ==> r == Some(AsrResult(text, true)))
  {
  }

  /** Interim results come only from active chunks, and exactly when the stripped hypothesis is new and non-empty. */
  lemma InterimIff(s: AsrState, chunk: Audio, rms: real, hyp: seq<Audio> -> string)
    ensures var (t, r) := Step(s, chunk, rms, hyp);
            var fed := if s.speaking then s.accepted + [chunk] else s.accepted + Lookback(s.window + [chunk]) + [chunk];
            var text := Strip(hyp(fed));
            (r.Some? && !r.value.isFinal)
              <==> (IsVoiceActive(s.speaking, rms) && text != "" && text != s.lastPartial)
  {
  }

  /** Final results come only from inactive chunks while speaking, on the 25th in a row. */
  lemma FinalOnlyAtEndpoint(s: AsrState, chunk: Audio, rms: real, hyp: seq<Audio> -> string)
    ensures var (t, r) := Step(s, chunk, rms, hyp);
            (r.Some? && r.value.isFinal)
              ==> s.speaking && !IsVoiceActive(s.speaking, rms) && s.silence + 1 >= SilenceFramesForEndpoint
  {
  }

  // ---------------------------------------------------------------------------
  // Runs of chunks

  datatype Input = Input(chunk: Audio, rms: real)

  function Chunks(inputs: seq<Input>): (c: seq<Audio>)
    ensures |c| == |inputs|
    decreases |inputs|
  {
    if inputs == [] then [] else [inputs[0].chunk] + Chunks(inputs[1..])
  }

  /** `process_audio` called on each input in turn: the final state and every call's result. */
  function Run(s: AsrState, inputs: seq<Input>, hyp: seq<Audio> -> string): (r: (AsrState, seq<Option<AsrResult>>))
    ensures |r.1| == |inputs|
    decreases |inputs|
  {
    if inputs == [] then (s, [])
    else
      var step := Step(s, inputs[0].chunk, inputs[0].rms, hyp);
      var rest := Run(step.0, inputs[1..], hyp);
      (rest.0, [step.1] + rest.1)
  }

  /** Any run keeps the state invariant. */
  lemma {:induction false} RunPreservesInv(s: AsrState, inputs: seq<Input>, hyp: seq<Audio> -> string)
    requires Inv(s)
    ensures Inv(Run(s, inputs, hyp).0)
    decreases |inputs|
  {
    if inputs != [] {
      StepPreservesInv(s, inputs[0].chunk, inputs[0].rms, hyp);
      RunPreservesInv(Step(s, inputs[0].chunk, inputs[0].rms, hyp).0, inputs[1..], hyp);
    }
  }

  predicate AllBelow(inputs: seq<Input>, threshold: real)
  {
    forall i :: 0 <= i < |inputs| ==> inputs[i].rms < threshold
  }

  predicate AllNone(results: seq<Option<AsrResult>>)
  {
    forall i :: 0 <= i < |results| ==> results[i] == None
  }

  lemma AllBelowTail(inputs: seq<Input>, threshold: real)
    requires inputs != [] && AllBelow(inputs, threshold)
    ensures AllBelow(inputs[1..], threshold)
  {
    forall k | 0 <= k < |inputs[1..]| ensures inputs[1..][k].rms < threshold {
      assert inputs[1..][k] == inputs[k + 1];
    }
  }

  lemma AllNoneCons(results: seq<Option<AsrResult>>)
    requires AllNone(results)
    ensures AllNone([None] + results)
  {
    forall k | 0 <= k < |[None] + results| ensures ([None] + results)[k] == None {
      if k > 0 { assert ([None] + results)[k] == results[k - 1]; }
    }
  }

  /**
   * Idle, any number of chunks below the START threshold: still idle,
   * nothing fed to the decoder, no results, and the window holds the last 25
   * chunks seen.
   */
  lemma {:induction false} IdleQuietRun(s: AsrState, inputs: seq<Input>, hyp: seq<Audio> -> string)
    requires !s.speaking && AllBelow(inputs, VadStartThreshold)
    ensures !Run(s, inputs, hyp).0.speaking && Run(s, inputs, hyp).0.accepted == s.accepted
    ensures AllNone(Run(s, inputs, hyp).1)
    decreases |inputs|
  {
    if inputs != [] {
      var i := inputs[0];
      IdleQuietStep(s, i.chunk, i.rms, hyp);
      var t := s.(window := Lookback(s.window + [i.chunk]));
      AllBelowTail(inputs, VadStartThreshold);
      IdleQuietRun(t, inputs[1..], hyp);
      var rest := Run(t, inputs[1..], hyp);
      assert Run(s, inputs, hyp) == (rest.0, [None] + rest.1);
      AllNoneCons(rest.1);
    }
  }

  /** Over the same idle run, the window holds the last 25 chunks seen. */
  lemma {:induction false} IdleQuietWindow(s: AsrState, inputs: seq<Input>, hyp: seq<Audio> -> string)
    requires !s.speaking && AllBelow(inputs, VadStartThreshold)
    ensures Run(s, inputs, hyp).0.window == if inputs == [] then s.window else Lookback(s.window + Chunks(inputs))
    decreases |inputs|
  {
    if inputs != [] {
      var i := inputs[0];
      IdleQuietStep(s, i.chunk, i.rms, hyp);
      var t := s.(window := Lookback(s.window + [i.chunk]));
      AllBelowTail(inputs, VadStartThreshold);
      IdleQuietWindow(t, inputs[1..], hyp);
      assert Run(s, inputs, hyp).0 == Run(t, inputs[1..], hyp).0;
      LookbackCons(s.window, inputs);
    }
  }

  /**
   * From a fresh idle state, quiet chunks and then a trigger: the decoder
   * receives the last 25 of the quiet chunks and the trigger (the window,
   * which already holds the trigger), then the trigger again. With fewer
   * than 25 quiet chunks that is all of them, in order, and the trigger twice.
   */
  lemma OnsetAfterIdleRun(s: AsrState, quiet: seq<Input>, trigger: Input, hyp: seq<Audio> -> string)
    requires !s.speaking && s.window == [] && s.accepted == []
    requires AllBelow(quiet, VadStartThreshold) && trigger.rms >= VadStartThreshold
    ensures Run(s, quiet + [trigger], hyp).0.speaking && Run(s, quiet + [trigger], hyp).0.window == []
    ensures Run(s, quiet + [trigger], hyp).0.accepted == Lookback(Chunks(quiet) + [trigger.chunk]) + [trigger.chunk]
  {
    var m := Run(s, quiet, hyp).0;
    var t := Step(m, trigger.chunk, trigger.rms, hyp).0;
    assert Run(s, quiet + [trigger], hyp).0 == t by {
      RunConcat(s, quiet, [trigger], hyp);
      RunSingle(m, trigger, hyp);
    }
    assert !m.speaking && m.accepted == [] by {
      IdleQuietRun(s, quiet, hyp);
    }
    assert m.window == if quiet == [] then s.window else Lookback(s.window + Chunks(quiet)) by {
      IdleQuietWindow(s, quiet, hyp);
    }
    OnsetFeeds(m, trigger.chunk, trigger.rms, hyp);
    FedAfterIdleRun(quiet, s.window, m.window, m.accepted, trigger.chunk);
  }

  /**
   * With fewer than 25 quiet chunks before the trigger, the decoder receives
   * every quiet chunk and then the trigger chunk twice.
   */
  lemma TriggerFedTwice(s: AsrState, quiet: seq<Input>, trigger: Input, hyp: seq<Audio> -> string)
    requires !s.speaking && s.window == [] && s.accepted == []
    requires AllBelow(quiet, VadStartThreshold) && trigger.rms >= VadStartThreshold
    requires |quiet| < WindowBufferSize
    ensures Run(s, quiet + [trigger], hyp).0.accepted == Chunks(quiet) + [trigger.chunk] + [trigger.chunk]
  {
    OnsetAfterIdleRun(s, quiet, trigger, hyp);
    LookbackShort(quiet, trigger.chunk);
  }

  /** What an onset does to the state: speaking, the window emptied into the decoder, then the trigger fed. */
  lemma OnsetFeeds(s: AsrState, chunk: Audio, rms: real, hyp: seq<Audio> -> string)
    requires !s.speaking && rms >= VadStartThreshold
    ensures Step(s, chunk, rms, hyp).0.speaking && Step(s, chunk, rms, hyp).0.window == []
    ensures Step(s, chunk, rms, hyp).0.accepted == s.accepted + Lookback(s.window + [chunk]) + [chunk]
  {
  }

  /** What the decoder receives at the onset, when the quiet chunks were appended to an empty window. */
  lemma FedAfterIdleRun(quiet: seq<Input>, w: seq<Audio>, window: seq<Audio>, accepted: seq<Audio>, c: Audio)
    requires w == [] && accepted == []
    requires window == if quiet == [] then w else Lookback(w + Chunks(quiet))
    ensures accepted + Lookback(window + [c]) + [c] == Lookback(Chunks(quiet) + [c]) + [c]
  {
    assert w + Chunks(quiet) == Chunks(quiet);
    if quiet == [] {
      assert window + [c] == Chunks(quiet) + [c];
    } else {
      LookbackAppend(Chunks(quiet), [c]);
    }
  }

  /** Fewer than 25 quiet chunks all survive in the window, so the trigger comes right after them, twice. */
  lemma LookbackShort(quiet: seq<Input>, c: Audio)
    requires |quiet| < WindowBufferSize
    ensures Lookback(Chunks(quiet) + [c]) + [c] == Chunks(quiet) + [c] + [c]
  {
  }

  /** The window after the first chunk, then the rest, is the window after all of them. */
  lemma LookbackCons(w: seq<Audio>, inputs: seq<Input>)
    requires inputs != []
    ensures var w' := Lookback(w + [inputs[0].chunk]);
            (if inputs[1..] == [] then w' else Lookback(w' + Chunks(inputs[1..]))) == Lookback(w + Chunks(inputs))
  {
    var c, cs := inputs[0].chunk, Chunks(inputs[1..]);
    assert Chunks(inputs) == [c] + cs;
    assert w + [c] + cs == w + ([c] + cs);
    if inputs[1..] != [] {
      LookbackAppend(w + [c], cs);
    } else {
      assert [c] + cs == [c];
    }
  }

  /**
   * Speaking, a run of chunks below the END threshold that keeps the
   * silence count under 25: still speaking, every chunk fed, silence grown
   * by the run's length, no results.
   */
  lemma {:induction false} SpeakingQuietRun(s: AsrState, inputs: seq<Input>, hyp: seq<Audio> -> string)
    requires s.speaking && AllBelow(inputs, VadEndThreshold)
    requires s.silence + |inputs| < SilenceFramesForEndpoint
    ensures var (t, results) := Run(s, inputs, hyp);
            && t == s.(silence := s.silence + |inputs|, accepted := s.accepted + Chunks(inputs))
            && AllNone(results)
    decreases |inputs|
  {
    if inputs != [] {
      var i := inputs[0];
      SpeakingQuietStep(s, i.chunk, i.rms, hyp);
      var t := Step(s, i.chunk, i.rms, hyp).0;
      AllBelowTail(inputs, VadEndThreshold);
      SpeakingQuietRun(t, inputs[1..], hyp);
      assert s.accepted + [i.chunk] + Chunks(inputs[1..]) == s.accepted + Chunks(inputs);
    } else {
      assert s.accepted + Chunks(inputs) == s.accepted;
    }
  }

  /**
   * The endpoint: right after an active chunk (silence 0), 24 inactive
   * chunks produce nothing and the 25th ends the utterance, with a final
   * result exactly when the stripped hypothesis over all 25 is non-empty.
   */
  lemma EndpointAfter25(s: AsrState, inputs: seq<Input>, hyp: seq<Audio> -> string)
    requires s.speaking && s.silence == 0 && |inputs| == SilenceFramesForEndpoint
    requires AllBelow(inputs, VadEndThreshold)
    ensures AllNone(Run(s, inputs, hyp).1[..24])
    ensures Run(s, inputs, hyp).0 == ResetState(s)
    ensures var text := Strip(hyp(s.accepted + Chunks(inputs)));
            Run(s, inputs, hyp).1[24] == if text != "" then Some(AsrResult(text, true)) else None
  {
    var first, last := inputs[..24], inputs[24..];
    assert inputs == first + last;
    AllBelowPrefix(inputs, 24, VadEndThreshold);
    SpeakingQuietRun(s, first, hyp);
    RunConcat(s, first, last, hyp);
    var m := Run(s, first, hyp);
    var i := inputs[24];
    SpeakingQuietStep(m.0, i.chunk, i.rms, hyp);
    var step := Step(m.0, i.chunk, i.rms, hyp);
    assert |last| == 1 && last[0] == i;
    assert last == [i];
    RunSingle(m.0, i, hyp);
    assert Run(s, inputs, hyp).1 == m.1 + [step.1];
    assert (m.1 + [step.1])[..24] == m.1;
    ChunksConcat(first, last);
    assert m.0.accepted + [i.chunk] == s.accepted + Chunks(inputs);
  }

  lemma RunSingle(s: AsrState, i: Input, hyp: seq<Audio> -> string)
    ensures var step := Step(s, i.chunk, i.rms, hyp);
            Run(s, [i], hyp) == (step.0, [step.1])
  {
    assert [i][1..] == [];
    var step := Step(s, i.chunk, i.rms, hyp);
    assert [step.1] + [] == [step.1];
  }

  lemma AllBelowPrefix(inputs: seq<Input>, n: nat, threshold: real)
    requires n <= |inputs| && AllBelow(inputs, threshold)
    ensures AllBelow(inputs[..n], threshold)
  {
    forall k | 0 <= k < n ensures inputs[..n][k].rms < threshold {
      assert inputs[..n][k] == inputs[k];
    }
  }

  /** A run over two pieces is the run over the first followed by the run over the second. */
  lemma {:induction false} RunConcat(s: AsrState, x: seq<Input>, y: seq<Input>, hyp: seq<Audio> -> string)
    ensures Run(s, x + y, hyp).0 == Run(Run(s, x, hyp).0, y, hyp).0
    ensures Run(s, x + y, hyp).1 == Run(s, x, hyp).1 + Run(Run(s, x, hyp).0, y, hyp).1
    decreases |x|
  {
    if x == [] {
      assert x + y == y;
      assert Run(s, x, hyp) == (s, []);
      assert [] + Run(s, y, hyp).1 == Run(s, y, hyp).1;
    } else {
      var step := Step(s, x[0].chunk, x[0].rms, hyp);
      assert (x + y)[0] == x[0] && (x + y)[1..] == x[1..] + y;
      RunConcat(step.0, x[1..], y, hyp);
      var tail := Run(step.0, x[1..], hyp);
      var rest := Run(tail.0, y, hyp);
      assert [step.1] + (tail.1 + rest.1) == [step.1] + tail.1 + rest.1;
    }
  }

  lemma {:induction false} ChunksConcat(x: seq<Input>, y: seq<Input>)
    ensures Chunks(x + y) == Chunks(x) + Chunks(y)
    decreases |x|
  {
    if x == [] {
      assert x + y == y;
    } else {
      assert (x + y)[1..] == x[1..] + y;
      ChunksConcat(x[1..], y);
    }
  }

  // ---------------------------------------------------------------------------
  // The resampler cache

  /** The cache as positions: how many chunks each source rate's resampler has been fed. */
  function ChunkFor(positions: map<int, nat>, audioData: Audio, sampleRate: int): (c: Audio)
    ensures sampleRate == TargetSampleRate ==> c == audioData
    ensures sampleRate != TargetSampleRate ==> c.Resampled? && c.sourceRate == sampleRate && c.input == audioData
    ensures sampleRate != TargetSampleRate && sampleRate !in positions ==> c.position == 0
    ensures sampleRate != TargetSampleRate && sampleRate in positions ==> c.position == positions[sampleRate]
  {
    if sampleRate == TargetSampleRate then audioData
    else Resampled(sampleRate, if sampleRate in positions then positions[sampleRate] else 0, audioData)
  }

  function NextPositions(positions: map<int, nat>, sampleRate: int): (p: map<int, nat>)
    ensures sampleRate == TargetSampleRate ==> p == positions
    ensures sampleRate != TargetSampleRate ==> p.Keys == positions.Keys + {sampleRate}
  {
    if sampleRate == TargetSampleRate then positions
    else positions[sampleRate := (if sampleRate in positions then positions[sampleRate] else 0) + 1]
  }

  /** The cache after `_get_resampler` found or created the entry, advanced by one chunk. */
  lemma NextPositionsFromCache(positions: map<int, nat>, cached: map<int, nat>, sampleRate: int)
    requires sampleRate != TargetSampleRate
    requires cached == if sampleRate in positions then positions else positions[sampleRate := 0]
    ensures NextPositions(positions, sampleRate) == cached[sampleRate := cached[sampleRate] + 1]
  {
  }

  /**
   * The n-th chunk a resampler outputs is the n-th of its stream: two calls
   * at the same non-16 kHz rate never see the same position, while 16 kHz
   * input is passed through untouched.
   */
  lemma ResamplerPositionsAdvance(positions: map<int, nat>, audioData: Audio, sampleRate: int)
    ensures var c := ChunkFor(positions, audioData, sampleRate);
            var p := NextPositions(positions, sampleRate);
            if sampleRate == TargetSampleRate then c == audioData && p == positions
            else && c.Resampled? && c.sourceRate == sampleRate && c.input == audioData
                 && p[sampleRate] == c.position + 1
                 && (forall rate :: rate in positions && rate != sampleRate ==> p[rate] == positions[rate])
  {
  }

  // ---------------------------------------------------------------------------
  // The objects

  /** The decoder's stream: the chunks it accepted, in order. */
  class Stream {
    var accepted: seq<Audio>

    constructor ()
      ensures accepted == []
    {
      accepted := [];
    }

    /** `accept_waveform`, always called with 16 kHz audio. */
    method AcceptWaveform(samples: Audio)
      modifies this
      ensures accepted == old(accepted) + [samples]
    {
      accepted := accepted + [samples];
    }
  }

  /** A `soxr.ResampleStream` from one source rate to 16 kHz. */
  class Resampler {
    const sourceRate: int
    var position: nat

    constructor (sourceRate: int)
      ensures this.sourceRate == sourceRate && position == 0
    {
      this.sourceRate := sourceRate;
      position := 0;
    }

    /** `resample_chunk`: the output for the next chunk of this stream. */
    method ResampleChunk(audioData: Audio) returns (out: Audio)
      modifies this
      ensures out == Resampled(sourceRate, old(position), audioData)
      ensures position == old(position) + 1
    {
      out := Resampled(sourceRate, position, audioData);
      position := position + 1;
    }
  }

  /** `LocalASR`. */
  class LocalAsr {
    /** The decoder's hypothesis (`get_result(stream)`) for the chunks its stream accepted. */
    const hypothesis: seq<Audio> -> string
    var stream: Stream
    var lastPartialText: string
    var resamplers: map<int, Resampler>
    var isSpeaking: bool
    var silenceFrameCount: nat
    var maxRms: real
    var windowBuffer: seq<Audio>

    ghost function State(): AsrState
      reads this`isSpeaking, this`silenceFrameCount, this`maxRms, this`lastPartialText, this`windowBuffer,
            this`stream, stream
    {
      AsrState(isSpeaking, silenceFrameCount, maxRms, lastPartialText, windowBuffer, stream.accepted)
    }

    ghost function Positions(): map<int, nat>
      reads this`resamplers, resamplers.Values
    {
      map rate | rate in resamplers :: resamplers[rate].position
    }

    /** Each cached resampler converts from the rate it is filed under, and there is none for 16 kHz. */
    ghost predicate CacheValid()
      reads this`resamplers, resamplers.Values
    {
      && (forall rate :: rate in resamplers ==> resamplers[rate].sourceRate == rate)
      && TargetSampleRate !in resamplers
    }

    ghost predicate Valid()
      reads this, stream, resamplers.Values
    {
      CacheValid() && Inv(State())
    }

    constructor (hypothesis: seq<Audio> -> string)
      ensures Valid() && this.hypothesis == hypothesis
      ensures State() == AsrState(false, 0, 0.0, "", [], []) && resamplers == map[]
    {
      this.hypothesis := hypothesis;
      stream := new Stream();
      lastPartialText := "";
      resamplers := map[];
      isSpeaking := false;
      silenceFrameCount := 0;
      maxRms := 0.0;
      windowBuffer := [];
    }

    /** `reset`: a fresh stream and the utterance state cleared; window and resamplers kept. */
    method Reset()
      modifies this`stream, this`lastPartialText, this`isSpeaking, this`silenceFrameCount, this`maxRms
      ensures fresh(stream)
      ensures State() == ResetState(old(State()))
    {
      stream := new Stream();
      lastPartialText := "";
      isSpeaking := false;
      silenceFrameCount := 0;
      maxRms := 0.0;
    }

    /**
     * `_get_resampler`: none for 16 kHz; otherwise the cached resampler for
     * that rate, created (at position 0) on the first call.
     */
    method GetResampler(sourceRate: int) returns (r: Resampler?)
      requires CacheValid()
      modifies this`resamplers
      ensures CacheValid()
      ensures sourceRate == TargetSampleRate ==> r == null && resamplers == old(resamplers)
      ensures sourceRate in old(resamplers) ==> r == old(resamplers)[sourceRate] && resamplers == old(resamplers)
      ensures sourceRate != TargetSampleRate && sourceRate !in old(resamplers) ==>
                r != null && fresh(r) && r.position == 0 && resamplers == old(resamplers)[sourceRate := r]
      ensures r != null ==> r.sourceRate == sourceRate && sourceRate in resamplers && resamplers[sourceRate] == r
      ensures Positions() == if sourceRate == TargetSampleRate || sourceRate in old(resamplers) then old(Positions())
                             else old(Positions())[sourceRate := 0]
    {
      if sourceRate == TargetSampleRate {
        return null;
      }
      if sourceRate !in resamplers {
        var created := new Resampler(sourceRate);
        resamplers := resamplers[sourceRate := created];
      }
      r := resamplers[sourceRate];
    }

    /**
     * `process_audio`: the chunk, resampled to 16 kHz when it is not already,
     * taken through one step of the recogniser; rms is the energy of the
     * resampled chunk.
     */
    method ProcessAudio(audioData: Audio, sampleRate: int, rms: real) returns (result: Option<AsrResult>)
      requires Valid()
      modifies this, stream, resamplers.Values
      ensures Valid()
      ensures (State(), result) == Step(old(State()), ChunkFor(old(Positions()), audioData, sampleRate), rms, hypothesis)
      ensures Positions() == NextPositions(old(Positions()), sampleRate)
      ensures forall rate :: rate in old(resamplers) ==> rate in resamplers && resamplers[rate] == old(resamplers)[rate]
    {
      var chunk := Resample(audioData, sampleRate);
      ghost var positions := Positions();
      result := ProcessResampled(chunk, rms);
      assert Positions() == positions;
      StepPreservesInv(old(State()), chunk, rms, hypothesis);
    }

    /** Step 1 of `process_audio`: the chunk through the resampler for its rate, if any. */
    method Resample(audioData: Audio, sampleRate: int) returns (chunk: Audio)
      requires CacheValid()
      modifies this`resamplers, resamplers.Values
      ensures CacheValid()
      ensures chunk == ChunkFor(old(Positions()), audioData, sampleRate)
      ensures Positions() == NextPositions(old(Positions()), sampleRate)
      ensures forall rate :: rate in old(resamplers) ==> rate in resamplers && resamplers[rate] == old(resamplers)[rate]
    {
      var resampler := GetResampler(sampleRate);
      chunk := audioData;
      if resampler != null {
        ghost var before, cache := Positions(), resamplers;
        chunk := resampler.ResampleChunk(audioData);
        ghost var after := Positions();
        forall rate | rate in after
          ensures after[rate] == before[sampleRate := before[sampleRate] + 1][rate]
        {
          if rate != sampleRate {
            assert cache[rate].sourceRate != resampler.sourceRate;
          }
        }
        assert after == before[sampleRate := before[sampleRate] + 1];
        NextPositionsFromCache(old(Positions()), before, sampleRate);
      }
    }

    /** Steps 2 to 7 of `process_audio`, on the resampled chunk. */
    method ProcessResampled(chunk: Audio, rms: real) returns (result: Option<AsrResult>)
      modifies this`stream, this`lastPartialText, this`isSpeaking, this`silenceFrameCount, this`maxRms,
               this`windowBuffer, stream
      ensures (State(), result) == Step(old(State()), chunk, rms, hypothesis)
    {
      var isVoiceActive := FeedChunk(chunk, rms);
      result := ConcludeChunk(isVoiceActive);
    }

    /** Steps 6 and 7 of `process_audio`: endpoint detection, then the interim result. */
    method ConcludeChunk(isVoiceActive: bool) returns (result: Option<AsrResult>)
      modifies this`stream, this`lastPartialText, this`isSpeaking, this`silenceFrameCount, this`maxRms
      ensures (State(), result) == Conclude(old(State()), isVoiceActive, hypothesis)
    {
      // 6. endpoint
      if !isVoiceActive && isSpeaking {
        silenceFrameCount := silenceFrameCount + 1;
        if silenceFrameCount >= SilenceFramesForEndpoint {
          var text := Strip(hypothesis(stream.accepted));
          Reset();
          if text != "" {
            return Some(AsrResult(text, true));
          }
          return None;
        }
      }
      // 7. interim result
      if isVoiceActive && isSpeaking {
        var text := Strip(hypothesis(stream.accepted));
        if text != "" && text != lastPartialText {
          lastPartialText := text;
          return Some(AsrResult(text, false));
        }
      }
      return None;
    }

    /** The onset: every chunk of the window, in order, to the decoder; then the window is cleared. */
    method FlushWindow()
      modifies this`windowBuffer, stream
      ensures stream.accepted == old(stream.accepted) + old(windowBuffer) && windowBuffer == []
    {
      for i := 0 to |windowBuffer|
        invariant stream.accepted == old(stream.accepted) + windowBuffer[..i]
        modifies stream
      {
        stream.AcceptWaveform(windowBuffer[i]);
      }
      windowBuffer := [];
    }

    /** Steps 2 to 5 of `process_audio`: which threshold applies, the window, the onset flush and feeding the decoder. */
    method FeedChunk(chunk: Audio, rms: real) returns (isVoiceActive: bool)
      modifies this`isSpeaking, this`silenceFrameCount, this`maxRms, this`windowBuffer, stream
      ensures isVoiceActive == IsVoiceActive(old(isSpeaking), rms)
      ensures State() == Feed(old(State()), chunk, rms)
    {
      ghost var s0 := State();
      // 2. the threshold that applies
      isVoiceActive := if !isSpeaking then rms >= VadStartThreshold else rms >= VadEndThreshold;
      // 3. the lookback window, while idle
      if !isSpeaking {
        windowBuffer := Lookback(windowBuffer + [chunk]);
      }
      // 4. state change
      if isVoiceActive {
        if !isSpeaking {
          FlushWindow();
        }
        isSpeaking := true;
        silenceFrameCount := 0;
        if rms > maxRms {
          maxRms := rms;
        }
      }
      // 5. feed the decoder
      if isSpeaking {
        stream.AcceptWaveform(chunk);
      }
    }
  }

  // ---------------------------------------------------------------------------
  // The integer part of audio_frame_to_float32

  /**
   * The int16 samples `audio_frame_to_float32` scales: an odd trailing byte
   * is dropped; with two channels and an even sample count only channel 0
   * (the even samples) is kept; otherwise (one channel, or the reshape to
   * pairs failing on an odd count) all samples are.
   */
  function AudioFrameToInt16(frameData: seq<byte>, numChannels: int): (r: seq<int16>)
    ensures |r| == if numChannels == 2 && (|frameData| / 2) % 2 == 0 then |frameData| / 4 else |frameData| / 2
  {
    var aligned := if |frameData| % 2 != 0 then frameData[..|frameData| - 1] else frameData;
    var samples := DecodeSamples(aligned);
    if numChannels == 2 && |samples| % 2 == 0 then Evens(samples) else samples
  }

  /** With one channel (or odd stereo), sample i comes from bytes 2i and 2i+1; an odd last byte is ignored. */
  lemma AudioFrameAllSamples(frameData: seq<byte>, numChannels: int, i: nat)
    requires numChannels != 2 || (|frameData| / 2) % 2 != 0
    requires i < |frameData| / 2
    ensures |AudioFrameToInt16(frameData, numChannels)| == |frameData| / 2
    ensures AudioFrameToInt16(frameData, numChannels)[i] == SampleFromLE(frameData[2 * i], frameData[2 * i + 1])
  {
    var aligned := if |frameData| % 2 != 0 then frameData[..|frameData| - 1] else frameData;
    DecodeSampleAt(aligned, i);
  }

  /** With two channels and an even sample count, output sample i is input sample 2i, from bytes 4i and 4i+1. */
  lemma AudioFrameChannelZero(frameData: seq<byte>, i: nat)
    requires (|frameData| / 2) % 2 == 0
    requires i < |frameData| / 4
    ensures |AudioFrameToInt16(frameData, 2)| == |frameData| / 4
    ensures AudioFrameToInt16(frameData, 2)[i] == SampleFromLE(frameData[4 * i], frameData[4 * i + 1])
  {
    var aligned := if |frameData| % 2 != 0 then frameData[..|frameData| - 1] else frameData;
    var samples := DecodeSamples(aligned);
    EvensOddsAt(samples, i);
    DecodeSampleAt(aligned, 2 * i);
  }

  /**
   * Channel 0 of interleaved stereo is the left channel exactly, whatever
   * the right channel holds: the channels are not averaged.
   */
  lemma StereoTakesLeftChannel(left: seq<int16>, right: seq<int16>)
    requires |left| == |right|
    ensures AudioFrameToInt16(EncodeSamples(Interleave(left, right)), 2) == left
  {
    var stereo := Interleave(left, right);
    EvenLength(|EncodeSamples(stereo)|, |stereo|);
    EvenLength(|stereo|, |left|);
    DecodeEncode(stereo);
    DeinterleaveInterleave(left, right);
  }
}

/**
 * The duration-based voice activity detector: it accumulates the length of
 * the current run of active (or inactive) frames and reports the start of
 * speech once an active run is long enough, and its end once an inactive run
 * is long enough. Whether a frame is active (its RMS against the volume
 * threshold) and how long it lasts are given per frame.
 */
module Vad {
  import opened Wrappers

  datatype VadEventType = StartOfSpeech | EndOfSpeech

  /** An event as reported; the wall-clock timestamp is not modelled. */
  datatype VadEvent = VadEvent(eventType: VadEventType, speechDuration: real, silenceDuration: real)

  /** The engine's state: speaking flag and the two accumulated durations (seconds). */
  datatype VadState = VadState(speaking: bool, speech: real, silence: real)

  /** One frame of `process_frame`: the new state and the event, if any. */
  function VadStep(s: VadState, isActive: bool, frameDuration: real,
                   startThreshold: real, stopThreshold: real): (r: (VadState, Option<VadEvent>))
    ensures r.0.speech == 0.0 || r.0.silence == 0.0
    ensures r.1.Some? ==> r.1.value == VadEvent(r.1.value.eventType, r.0.speech, r.0.silence)
    ensures r.1.Some? ==> (r.1.value.eventType == StartOfSpeech <==> r.0.speaking)
  {
    if isActive then
      var speech := s.speech + frameDuration;
      if !s.speaking && speech >= startThreshold then
        (VadState(true, speech, 0.0), Some(VadEvent(StartOfSpeech, speech, 0.0)))
      else (VadState(s.speaking, speech, 0.0), None)
    else
      var silence := s.silence + frameDuration;
      if s.speaking && silence >= stopThreshold then
        (VadState(false, 0.0, silence), Some(VadEvent(EndOfSpeech, 0.0, silence)))
      else (VadState(s.speaking, 0.0, silence), None)
  }

  /**
   * The durations after a frame: an active frame zeroes the silence and adds
   * its duration to the speech, an inactive one the other way round.
   */
  lemma {:induction false} StepDurations(s: VadState, isActive: bool, d: real, startT: real, stopT: real)
    ensures var (t, _) := VadStep(s, isActive, d, startT, stopT);
            if isActive then t.silence == 0.0 && t.speech == s.speech + d
            else t.speech == 0.0 && t.silence == s.silence + d
  {
  }

  /** START is reported exactly when the engine was not speaking and the speech run reaches the start threshold; it sets speaking. */
  lemma {:induction false} StartOfSpeechIff(s: VadState, isActive: bool, d: real, startT: real, stopT: real)
    ensures var (t, e) := VadStep(s, isActive, d, startT, stopT);
            (e.Some? && e.value.eventType == StartOfSpeech)
              <==> (isActive && !s.speaking && s.speech + d >= startT)
    ensures var (t, e) := VadStep(s, isActive, d, startT, stopT);
            e.Some? && e.value.eventType == StartOfSpeech ==>
              t.speaking && e.value == VadEvent(StartOfSpeech, s.speech + d, 0.0)
  {
  }

  /** END is reported exactly when the engine was speaking and the silence run reaches the stop threshold; it clears speaking. */
  lemma {:induction false} EndOfSpeechIff(s: VadState, isActive: bool, d: real, startT: real, stopT: real)
    ensures var (t, e) := VadStep(s, isActive, d, startT, stopT);
            (e.Some? && e.value.eventType == EndOfSpeech)
              <==> (!isActive && s.speaking && s.silence + d >= stopT)
    ensures var (t, e) := VadStep(s, isActive, d, startT, stopT);
            e.Some? && e.value.eventType == EndOfSpeech ==>
              !t.speaking && e.value == VadEvent(EndOfSpeech, 0.0, s.silence + d)
  {
  }

  /** A frame changes the speaking flag exactly when it reports an event. */
  lemma {:induction false} EventIffFlagChanges(s: VadState, isActive: bool, d: real, startT: real, stopT: real)
    ensures var (t, e) := VadStep(s, isActive, d, startT, stopT);
            e.Some? <==> t.speaking != s.speaking
  {
  }

  /** A frame of activity and its duration. */
  datatype Frame = Frame(isActive: bool, duration: real)

  /** The state after a run of frames and the events it reported, in order. */
  function RunFrames(s: VadState, frames: seq<Frame>, startT: real, stopT: real): (r: (VadState, seq<VadEvent>))
    ensures |r.1| <= |frames|
    ensures frames == [] ==> r == (s, [])
    decreases |frames|
  {
    if frames == [] then (s, [])
    else
      var (t, e) := VadStep(s, frames[0].isActive, frames[0].duration, startT, stopT);
      var (u, rest) := RunFrames(t, frames[1..], startT, stopT);
      (u, (if e.Some? then [e.value] else []) + rest)
  }

  /** The k-th event of a run starting with the given speaking flag. */
  function Expected(speaking: bool, k: nat): VadEventType
  {
    if (k % 2 == 0) != speaking then StartOfSpeech else EndOfSpeech
  }

  /**
   * Over any run the events alternate: from a silent engine they are START,
   * END, START, ...; and afterwards the engine is speaking iff an odd number
   * of events flipped the flag.
   */
  lemma {:induction false} EventsAlternate(s: VadState, frames: seq<Frame>, startT: real, stopT: real)
    ensures var r := RunFrames(s, frames, startT, stopT);
            && (forall k :: 0 <= k < |r.1| ==> r.1[k].eventType == Expected(s.speaking, k))
            && r.0.speaking == (s.speaking != (|r.1| % 2 == 1))
    decreases |frames|
  {
    if frames != [] {
      var step := VadStep(s, frames[0].isActive, frames[0].duration, startT, stopT);
      var t := step.0;
      var rest := RunFrames(t, frames[1..], startT, stopT);
      EventsAlternate(t, frames[1..], startT, stopT);
      EventIffFlagChanges(s, frames[0].isActive, frames[0].duration, startT, stopT);
      var evs := RunFrames(s, frames, startT, stopT).1;
      if step.1.Some? {
        assert evs == [step.1.value] + rest.1;
        StartOfSpeechIff(s, frames[0].isActive, frames[0].duration, startT, stopT);
        EndOfSpeechIff(s, frames[0].isActive, frames[0].duration, startT, stopT);
        assert step.1.value.eventType == Expected(s.speaking, 0);
        forall k | 1 <= k < |evs| ensures evs[k].eventType == Expected(s.speaking, k) {
          assert evs[k] == rest.1[k - 1];
          ExpectedShift(s.speaking, k - 1);
        }
      } else {
        assert evs == rest.1;
      }
    }
  }

  lemma ExpectedShift(b: bool, k: nat)
    ensures Expected(b, k + 1) == Expected(!b, k)
  {
  }

  /** After every frame of a run, one of the two durations is zero. */
  lemma {:induction false} OneDurationZero(s: VadState, frames: seq<Frame>, startT: real, stopT: real)
    requires frames != []
    ensures var (u, _) := RunFrames(s, frames, startT, stopT);
            u.speech == 0.0 || u.silence == 0.0
    decreases |frames|
  {
    if |frames| > 1 {
      var (t, e) := VadStep(s, frames[0].isActive, frames[0].duration, startT, stopT);
      OneDurationZero(t, frames[1..], startT, stopT);
    }
  }

  /** `VADEngine`: the detector's mutable state and its two thresholds (seconds). */
  class VadEngine {
    const startTalkingThreshold: real
    const stopTalkingThreshold: real
    var isSpeaking: bool
    var speechDuration: real
    var silenceDuration: real

    function State(): VadState
      reads this
    {
      VadState(isSpeaking, speechDuration, silenceDuration)
    }

    constructor (startTalkingThreshold: real, stopTalkingThreshold: real)
      ensures this.startTalkingThreshold == startTalkingThreshold
      ensures this.stopTalkingThreshold == stopTalkingThreshold
      ensures State() == VadState(false, 0.0, 0.0)
    {
      this.startTalkingThreshold := startTalkingThreshold;
      this.stopTalkingThreshold := stopTalkingThreshold;
      isSpeaking := false;
      speechDuration := 0.0;
      silenceDuration := 0.0;
    }

    /** `process_frame`, with the frame's activity and duration given. */
    method ProcessFrame(isActive: bool, frameDuration: real) returns (event: Option<VadEvent>)
      modifies this
      ensures (State(), event) == VadStep(old(State()), isActive, frameDuration,
                                          startTalkingThreshold, stopTalkingThreshold)
      ensures speechDuration == 0.0 || silenceDuration == 0.0
    {
      event := None;
      if isActive {
        silenceDuration := 0.0;
        speechDuration := speechDuration + frameDuration;
        if !isSpeaking && speechDuration >= startTalkingThreshold {
          isSpeaking := true;
          event := Some(VadEvent(StartOfSpeech, speechDuration, 0.0));
        }
      } else {
        speechDuration := 0.0;
        silenceDuration := silenceDuration + frameDuration;
        if isSpeaking && silenceDuration >= stopTalkingThreshold {
          isSpeaking := false;
          event := Some(VadEvent(EndOfSpeech, speechDuration, silenceDuration));
        }
      }
    }

    /** `reset`: silent, with both durations zero. */
    method Reset()
      modifies this
      ensures State() == VadState(false, 0.0, 0.0)
    {
      isSpeaking := false;
      speechDuration := 0.0;
      silenceDuration := 0.0;
    }
  }
}

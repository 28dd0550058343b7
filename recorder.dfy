/**
 * The dual-channel call recorder: user audio goes to the left channel,
 * agent audio to the right. Each channel has its own growable byte buffer;
 * a flush takes as many 960-byte frames (480 samples of 16-bit PCM) as the
 * fuller buffer holds, pads the other channel with silence frames,
 * interleaves each pair into a stereo frame and appends it to the WAV file.
 * The WAV file is modelled as the append-only sequence of its data bytes.
 */
module Recorder {
  import opened Wrappers
  import opened Bytes
  import opened Pcm

  const SampleRate: nat := 16000
  const NumChannels: nat := 2
  const BytesPerSample: nat := 2
  const SamplesPerFrame: nat := 480
  const FrameSize: nat := 960          // SamplesPerFrame * BytesPerSample
  const StereoFrameSize: nat := 1920   // NumChannels * FrameSize

  /** `SILENCE_FRAME`: one frame of zero bytes. */
  function SilenceFrame(): (f: seq<byte>)
    ensures |f| == FrameSize == SamplesPerFrame * BytesPerSample
    ensures forall i :: 0 <= i < |f| ==> f[i] == 0
  {
    Zeros(FrameSize)
  }

  function Zeros(n: nat): (z: seq<byte>)
    ensures |z| == n && forall i :: 0 <= i < n ==> z[i] == 0
  {
    seq(n, _ => 0)
  }

  /**
   * `_interleave_stereo`: both buffers read as int16 samples, cut to the
   * shorter, interleaved left/right and written back as bytes.
   * (`np.frombuffer` rejects a buffer whose length is not a whole number of samples.)
   */
  function InterleaveStereo(left: seq<byte>, right: seq<byte>): (r: seq<byte>)
    requires |left| % 2 == 0 && |right| % 2 == 0
    ensures |r| == 2 * Min(|left|, |right|)
  {
    EncodeSamples(Interleave(DecodeSamples(left), DecodeSamples(right)))
  }

  /** Stereo sample 2i is the left buffer's sample i and sample 2i+1 the right buffer's, for every i both hold. */
  lemma InterleaveStereoSamples(left: seq<byte>, right: seq<byte>, i: nat)
    requires |left| % 2 == 0 && |right| % 2 == 0
    requires 2 * i < |left| && 2 * i < |right|
    ensures |InterleaveStereo(left, right)| % 2 == 0
    ensures |DecodeSamples(InterleaveStereo(left, right))| == Min(|left|, |right|)
    ensures DecodeSamples(InterleaveStereo(left, right))[2 * i] == DecodeSamples(left)[i]
    ensures DecodeSamples(InterleaveStereo(left, right))[2 * i + 1] == DecodeSamples(right)[i]
  {
    var l, r := DecodeSamples(left), DecodeSamples(right);
    var m := Interleave(l, r);
    EvenLength(|EncodeSamples(m)|, |m|);
    DecodeEncode(m);
    InterleaveAt(l, r, i);
  }

  /** The left (user) channel of a stereo byte stream. */
  function LeftChannel(stereo: seq<byte>): (r: seq<byte>)
    requires |stereo| % 2 == 0
    ensures |stereo| % 4 == 0 ==> 2 * |r| == |stereo|
  {
    EncodeSamples(Evens(DecodeSamples(stereo)))
  }

  /** The right (agent) channel of a stereo byte stream. */
  function RightChannel(stereo: seq<byte>): (r: seq<byte>)
    requires |stereo| % 2 == 0
    ensures |stereo| % 4 == 0 ==> 2 * |r| == |stereo|
  {
    EncodeSamples(Odds(DecodeSamples(stereo)))
  }

  /** Reading back the two channels of an interleaved pair of equal, sample-aligned buffers gives both buffers. */
  lemma {:induction false} ChannelsOfInterleaved(left: seq<byte>, right: seq<byte>)
    requires |left| == |right| && |left| % 2 == 0
    ensures LeftChannel(InterleaveStereo(left, right)) == left
    ensures RightChannel(InterleaveStereo(left, right)) == right
  {
    var l, r := DecodeSamples(left), DecodeSamples(right);
    DecodeEncode(Interleave(l, r));
    DeinterleaveInterleave(l, r);
    EncodeDecode(left);
    EncodeDecode(right);
  }

  /** The channels of k whole stereo samples followed by more audio are the concatenations of the channels. */
  lemma {:induction false} ChannelsConcat(k: nat, x: seq<byte>, y: seq<byte>)
    requires |x| == 4 * k && |y| % 2 == 0
    ensures |x| % 2 == 0 && |x + y| % 2 == 0
    ensures LeftChannel(x + y) == LeftChannel(x) + LeftChannel(y)
    ensures RightChannel(x + y) == RightChannel(x) + RightChannel(y)
  {
    EvenLength(|x|, 2 * k);
    EvenLength(|x + y|, k * 2 + |y| / 2);
    var dx, dy := DecodeSamples(x), DecodeSamples(y);
    EvenLength(|dx|, k);
    DecodeConcat(x, y);
    EvensConcat(dx, dy);
    OddsConcat(dx, dy);
    EncodeConcat(Evens(dx), Evens(dy));
    EncodeConcat(Odds(dx), Odds(dy));
  }

  /** The k-th frame a flush takes from a buffer: the k-th complete frame, or silence once they run out. */
  function FrameAt(buf: seq<byte>, k: nat): (f: seq<byte>)
    ensures |f| == FrameSize
  {
    if (k + 1) * FrameSize <= |buf| then buf[k * FrameSize .. (k + 1) * FrameSize] else SilenceFrame()
  }

  /** The stereo audio the first n iterations of a flush append, from the buffers as they were at its start. */
  function Mix(user: seq<byte>, agent: seq<byte>, n: nat): (r: seq<byte>)
    ensures |r| == n * 1920 && |r| % 2 == 0   // n * StereoFrameSize bytes
    decreases n
  {
    EvenLength(n * 1920, n * 960);
    if n == 0 then []
    else Mix(user, agent, n - 1) + InterleaveStereo(FrameAt(user, n - 1), FrameAt(agent, n - 1))
  }

  /** The first n frames a flush takes from one buffer. */
  function ChannelFrames(buf: seq<byte>, n: nat): (r: seq<byte>)
    ensures |r| == n * 960   // n * FrameSize bytes
    decreases n
  {
    if n == 0 then [] else ChannelFrames(buf, n - 1) + FrameAt(buf, n - 1)
  }

  /** The left channel of the mix is the user's frames and the right channel the agent's, frame for frame. */
  lemma {:induction false} MixChannels(user: seq<byte>, agent: seq<byte>, n: nat)
    ensures LeftChannel(Mix(user, agent, n)) == ChannelFrames(user, n)
    ensures RightChannel(Mix(user, agent, n)) == ChannelFrames(agent, n)
    decreases n
  {
    if n > 0 {
      var prev, l, r := Mix(user, agent, n - 1), FrameAt(user, n - 1), FrameAt(agent, n - 1);
      assert Mix(user, agent, n) == prev + InterleaveStereo(l, r);
      MixChannels(user, agent, n - 1);
      AppendStereoFrame((n - 1) * 480, prev, l, r);
      assert ChannelFrames(user, n) == LeftChannel(prev) + l;
      assert ChannelFrames(agent, n) == RightChannel(prev) + r;
    }
  }

  /** Appending one interleaved pair of mono frames to k stereo samples appends each frame to its own channel. */
  lemma AppendStereoFrame(k: nat, x: seq<byte>, l: seq<byte>, r: seq<byte>)
    requires |x| == 4 * k && |l| == |r| && |l| % 2 == 0
    ensures |x| % 2 == 0 && |x + InterleaveStereo(l, r)| == |x| + 2 * |l|
    ensures LeftChannel(x + InterleaveStereo(l, r)) == LeftChannel(x) + l
    ensures RightChannel(x + InterleaveStereo(l, r)) == RightChannel(x) + r
  {
    ChannelsConcat(k, x, InterleaveStereo(l, r));
    ChannelsOfInterleaved(l, r);
  }

  /** Writing one more stereo frame extends the mix by one frame. */
  lemma MixAppend(written: seq<byte>, user: seq<byte>, agent: seq<byte>, i: nat)
    ensures written + Mix(user, agent, i + 1)
            == written + Mix(user, agent, i) + InterleaveStereo(FrameAt(user, i), FrameAt(agent, i))
  {
  }

  /** Number of complete frames in a buffer. */
  function FullFrames(buf: seq<byte>): nat
  {
    |buf| / FrameSize
  }

  /**
   * Taking n frames from a buffer that holds at most n complete frames gives
   * all its complete frames, in order, then silence up to n frames.
   */
  lemma {:induction false} ChannelFramesPadded(buf: seq<byte>, n: nat)
    requires FullFrames(buf) <= n
    ensures ChannelFrames(buf, n) == buf[.. FullFrames(buf) * FrameSize] + Zeros((n - FullFrames(buf)) * FrameSize)
    decreases n
  {
    var m := FullFrames(buf);
    if n == m {
      ChannelFramesPrefix(buf, n);
      assert Zeros(0) == [];
    } else {
      ChannelFramesPadded(buf, n - 1);
      assert FrameAt(buf, n - 1) == SilenceFrame();
      assert Zeros((n - 1 - m) * FrameSize) + SilenceFrame() == Zeros((n - m) * FrameSize);
    }
  }

  /** The first n frames of a buffer holding at least n complete frames are its first n * 960 bytes. */
  lemma {:induction false} ChannelFramesPrefix(buf: seq<byte>, n: nat)
    requires n <= FullFrames(buf)
    ensures ChannelFrames(buf, n) == buf[.. n * FrameSize]
    decreases n
  {
    if n > 0 {
      ChannelFramesPrefix(buf, n - 1);
      assert buf[.. n * FrameSize] == buf[.. (n - 1) * FrameSize] + buf[(n - 1) * FrameSize .. n * FrameSize];
    }
  }

  /**
   * What a complete flush writes, channel by channel: the left channel is
   * the user's complete frames in order followed by silence up to
   * max(user frames, agent frames), the right channel likewise for the agent.
   */
  lemma {:induction false} FlushChannels(user: seq<byte>, agent: seq<byte>)
    ensures var n := Max(FullFrames(user), FullFrames(agent));
            && |Mix(user, agent, n)| == n * 1920
            && LeftChannel(Mix(user, agent, n))
               == user[.. FullFrames(user) * FrameSize] + Zeros((n - FullFrames(user)) * FrameSize)
            && RightChannel(Mix(user, agent, n))
               == agent[.. FullFrames(agent) * FrameSize] + Zeros((n - FullFrames(agent)) * FrameSize)
  {
    var n := Max(FullFrames(user), FullFrames(agent));
    MixChannels(user, agent, n);
    ChannelFramesPadded(user, n);
    ChannelFramesPadded(agent, n);
  }

  function Max(a: nat, b: nat): nat { if a >= b then a else b }

  /**
   * The file the recording goes to: `<dir>/<session id or "call">_<timestamp>.wav`,
   * joined as strings (pathlib's normalisation of the join is not modelled).
   */
  function RecordingPath(outputDir: string, sessionId: Option<string>, timestamp: string): (p: string)
    ensures |p| > |outputDir| && p[..|outputDir| + 1] == outputDir + "/"
    ensures var stem := if sessionId.Some? && sessionId.value != "" then sessionId.value else "call";
            |p| == |outputDir| + |stem| + |timestamp| + 6
            && p[|outputDir| + 1 .. |outputDir| + 1 + |stem|] == stem
            && p[|outputDir| + 1 + |stem|] == '_'
            && p[|outputDir| + 2 + |stem| .. |p| - 4] == timestamp
            && p[|p| - 4 ..] == ".wav"
  {
    var stem := if sessionId.None? || sessionId.value == "" then "call" else sessionId.value;
    outputDir + "/" + stem + "_" + timestamp + ".wav"
  }

  /** `AudioRecorder`. The asyncio flush task is not modelled; FlushBuffers is its body. */
  class AudioRecorder {
    const outputDir: string
    var wavOpen: bool              // a WAV file is open for writing
    var wavData: seq<byte>         // the data bytes written to the current (or last) file
    var filePath: Option<string>
    var isRecording: bool
    var userBuffer: seq<byte>
    var agentBuffer: seq<byte>
    var userFrameCount: nat
    var agentFrameCount: nat
    var syncedFrameCount: nat

    /** Between calls: recording, an open file and a path go together, and the file holds whole stereo frames. */
    ghost predicate Valid()
      reads this
    {
      && isRecording == wavOpen
      && isRecording == filePath.Some?
      && |wavData| == syncedFrameCount * StereoFrameSize
    }

    constructor (outputDir: string)
      ensures Valid() && this.outputDir == outputDir
      ensures !isRecording && wavData == [] && filePath == None
      ensures userBuffer == [] && agentBuffer == []
      ensures userFrameCount == 0 && agentFrameCount == 0 && syncedFrameCount == 0
    {
      this.outputDir := outputDir;
      wavOpen := false;
      wavData := [];
      filePath := None;
      isRecording := false;
      userBuffer := [];
      agentBuffer := [];
      userFrameCount := 0;
      agentFrameCount := 0;
      syncedFrameCount := 0;
    }

    /** `start`: a no-op returning the current path while recording; otherwise a new empty file and cleared buffers and counters. */
    method Start(sessionId: Option<string>, timestamp: string) returns (path: string)
      requires Valid()
      modifies this
      ensures Valid() && isRecording && filePath == Some(path)
      ensures old(isRecording) ==> path == old(filePath).value && unchanged(this)
      ensures !old(isRecording) ==>
                && path == RecordingPath(outputDir, sessionId, timestamp)
                && wavData == []
                && userBuffer == [] && agentBuffer == []
                && userFrameCount == 0 && agentFrameCount == 0 && syncedFrameCount == 0
    {
      if isRecording {
        return filePath.value;
      }
      path := RecordingPath(outputDir, sessionId, timestamp);
      filePath := Some(path);
      wavOpen := true;
      wavData := [];
      isRecording := true;
      userBuffer := [];
      agentBuffer := [];
      userFrameCount := 0;
      agentFrameCount := 0;
      syncedFrameCount := 0;
    }

    /**
     * `stop`: none when not recording; otherwise one last flush, the file
     * closed and its path returned. Sub-frame tails stay in the buffers and
     * are never written.
     */
    method Stop() returns (path: Option<string>)
      requires Valid()
      modifies this
      ensures Valid() && !isRecording && filePath == None
      ensures !old(isRecording) ==> path == None && unchanged(this)
      ensures old(isRecording) ==>
                var n := Max(FullFrames(old(userBuffer)), FullFrames(old(agentBuffer)));
                && path == old(filePath)
                && wavData == old(wavData) + Mix(old(userBuffer), old(agentBuffer), n)
                && syncedFrameCount == old(syncedFrameCount) + n
                && userBuffer == old(userBuffer)[FullFrames(old(userBuffer)) * FrameSize ..]
                && agentBuffer == old(agentBuffer)[FullFrames(old(agentBuffer)) * FrameSize ..]
                && userFrameCount == old(userFrameCount) && agentFrameCount == old(agentFrameCount)
    {
      if !isRecording {
        return None;
      }
      isRecording := false;
      FlushBuffers();
      wavOpen := false;
      path := filePath;
      filePath := None;
    }

    /** `write_user_frame`: while recording, the bytes go to the user buffer and its counter grows by the whole frames in them. */
    method WriteUserFrame(pcm: seq<byte>)
      modifies this
      ensures !old(isRecording) ==> unchanged(this)
      ensures old(isRecording) ==>
                && userBuffer == old(userBuffer) + pcm
                && userFrameCount == old(userFrameCount) + |pcm| / FrameSize
                && agentBuffer == old(agentBuffer) && agentFrameCount == old(agentFrameCount)
                && syncedFrameCount == old(syncedFrameCount) && wavData == old(wavData)
                && isRecording && wavOpen == old(wavOpen) && filePath == old(filePath)
    {
      if !isRecording {
        return;
      }
      userBuffer := userBuffer + pcm;
      userFrameCount := userFrameCount + |pcm| / FrameSize;
    }

    /** `write_agent_frame`: the same for the agent channel. */
    method WriteAgentFrame(pcm: seq<byte>)
      modifies this
      ensures !old(isRecording) ==> unchanged(this)
      ensures old(isRecording) ==>
                && agentBuffer == old(agentBuffer) + pcm
                && agentFrameCount == old(agentFrameCount) + |pcm| / FrameSize
                && userBuffer == old(userBuffer) && userFrameCount == old(userFrameCount)
                && syncedFrameCount == old(syncedFrameCount) && wavData == old(wavData)
                && isRecording && wavOpen == old(wavOpen) && filePath == old(filePath)
    {
      if !isRecording {
        return;
      }
      agentBuffer := agentBuffer + pcm;
      agentFrameCount := agentFrameCount + |pcm| / FrameSize;
    }

    /**
     * `_flush_buffers`: with a file open, writes max(user frames, agent
     * frames) stereo frames, leaving each buffer with its sub-frame tail.
     */
    method FlushBuffers()
      modifies this
      ensures var n := Max(FullFrames(old(userBuffer)), FullFrames(old(agentBuffer)));
              if !old(wavOpen) || n == 0 then unchanged(this)
              else
                && wavData == old(wavData) + Mix(old(userBuffer), old(agentBuffer), n)
                && syncedFrameCount == old(syncedFrameCount) + n
                && userBuffer == old(userBuffer)[FullFrames(old(userBuffer)) * FrameSize ..]
                && agentBuffer == old(agentBuffer)[FullFrames(old(agentBuffer)) * FrameSize ..]
                && userFrameCount == old(userFrameCount) && agentFrameCount == old(agentFrameCount)
                && wavOpen && isRecording == old(isRecording) && filePath == old(filePath)
    {
      if !wavOpen {
        return;
      }
      var userFrames := |userBuffer| / FrameSize;
      var agentFrames := |agentBuffer| / FrameSize;
      var framesToWrite := Max(userFrames, agentFrames);
      if framesToWrite == 0 {
        return;
      }
      wavData, userBuffer, agentBuffer := WriteFrames(wavData, userBuffer, agentBuffer, framesToWrite);
      syncedFrameCount := syncedFrameCount + framesToWrite;
    }
  }

  /**
   * The loop of `_flush_buffers`: n times, take the next frame of each
   * buffer (or silence), interleave the pair and append it to the file.
   */
  method WriteFrames(written: seq<byte>, user: seq<byte>, agent: seq<byte>, n: nat)
    returns (data: seq<byte>, userRest: seq<byte>, agentRest: seq<byte>)
    ensures data == written + Mix(user, agent, n)
    ensures userRest == Remaining(user, n) && agentRest == Remaining(agent, n)
  {
    data, userRest, agentRest := written, user, agent;
    for i := 0 to n
      invariant userRest == Remaining(user, i)
      invariant agentRest == Remaining(agent, i)
      invariant data == written + Mix(user, agent, i)
    {
      var leftData, rightData;
      leftData, userRest := NextFrame(userRest, user, i);
      rightData, agentRest := NextFrame(agentRest, agent, i);
      var interleaved := InterleaveStereo(leftData, rightData);
      MixAppend(written, user, agent, i);
      data := data + interleaved;
    }
  }

  /**
   * One channel's step of the flush loop: the next complete frame and the
   * rest of the buffer, or silence and the buffer untouched. At iteration i
   * of a flush that started from `start`, the frame is FrameAt(start, i).
   */
  method NextFrame(buf: seq<byte>, ghost start: seq<byte>, ghost i: nat) returns (frame: seq<byte>, rest: seq<byte>)
    requires buf == Remaining(start, i)
    ensures frame == FrameAt(start, i) && rest == Remaining(start, i + 1)
    ensures |frame| == FrameSize
  {
    TakeFrame(start, i);
    if |buf| >= FrameSize {
      frame := buf[..FrameSize];
      rest := buf[FrameSize..];
    } else {
      frame := SilenceFrame();
      rest := buf;
    }
  }

  /** What is left of a buffer after the flush loop's first i iterations. */
  function Remaining(buf: seq<byte>, i: nat): (r: seq<byte>)
    ensures i >= FullFrames(buf) ==> r == buf[FullFrames(buf) * FrameSize ..]
  {
    buf[Min(i, FullFrames(buf)) * FrameSize ..]
  }

  /** Iteration i of the flush loop takes the i-th frame of a buffer, or silence once its complete frames are used up. */
  lemma TakeFrame(buf: seq<byte>, i: nat)
    ensures |Remaining(buf, i)| >= FrameSize <==> i < FullFrames(buf)
    ensures i < FullFrames(buf) ==> && Remaining(buf, i)[..FrameSize] == FrameAt(buf, i)
                                    && Remaining(buf, i)[FrameSize..] == Remaining(buf, i + 1)
    ensures i >= FullFrames(buf) ==> FrameAt(buf, i) == SilenceFrame() && Remaining(buf, i + 1) == Remaining(buf, i)
  {
  }
}

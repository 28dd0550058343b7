# Real-time audio core of a voice agent, modelled in Dafny

This project models the four sequential cores of the voice agent's audio path and proves properties about them:

- **`LocalASR`, the VAD-gated streaming recogniser** (`asr.dfy`). It resamples each chunk to 16 kHz, keeping one resampler per source rate. It judges the chunk against two energy thresholds: 0.025 to start speaking, 0.015 to keep speaking. While idle it keeps a 25-chunk lookback window. At onset it flushes that window into the decoder, then feeds every chunk while speaking. It emits interim results on active chunks and a final result after 25 consecutive inactive chunks. A pure function `Step` specifies one call of `process_audio`, and `Run` specifies a run of calls. The class `LocalAsr` has the source's fields, and `ProcessAudio` is proved to compute `Step` of its old state. The decoder is a `Stream` that records the chunks it accepted. Its hypothesis text is a function of those chunks, given to the constructor. A chunk's energy is given with the chunk. The integer part of `audio_frame_to_float32` is a pure function: it trims an odd length, decodes little-endian `int16` and takes channel 0.
- **`AudioRecorder`, the dual-channel recorder** (`recorder.dfy`). User bytes and agent bytes collect in two buffers. A flush takes as many 960-byte frames as the fuller buffer holds and pads the other channel with silence frames. It interleaves each pair sample by sample and appends the result to the WAV data, which is modelled as an append-only byte sequence. The pure function `Mix` says what a flush writes. `FlushChannels` proves what each stereo channel then holds.
- **The Volcengine synthesis wire codec** (`tts.dfy`). It covers:
  - the 4-byte nibble header, the big-endian u32 length and the payload of a request;
  - response parsing, with its optional signed sequence number and length-checked payload;
  - the per-message decision of the streaming loop, and that loop as a fold over the messages received.
- **`VADEngine`, the duration-based detector** (`vad.dfy`). It accumulates speech and silence durations and reports START and END of speech. Over any run these events alternate.

`bytes.dfy` (big-endian integers as `struct` packs them) and `pcm.dfy` (16-bit little-endian PCM, interleaving and de-interleaving) are shared by the cores. `wrappers.dfy` holds `Option` and `Result`.

Three behaviours of the code are kept as written:

- **The trigger chunk reaches the decoder twice.** While idle, the chunk is appended to the window before the threshold test (`asr.py:186-187`). At onset the window, which already ends with the trigger chunk, is flushed into the decoder (`asr.py:204-208`), and then the chunk is fed again (`asr.py:216-218`).
  - See `Asr.OnsetStep` and `Asr.TriggerFedTwice`.
  - After 25 or more idle chunks the oldest of them is also lost, because the trigger takes one of the window's 25 slots: see `Asr.OnsetAfterIdleRun`.
- **Interim results come only from active chunks.** They require the chunk to be active against the END threshold while speaking (`asr.py:245`); an inactive chunk in the middle of an utterance never yields one. See `Asr.InterimIff`.
- **The even-length trim happens in the streaming loop.** `synthesize_stream` trims an odd payload (`tts.py:96-97`); `_parse_response` returns the payload untrimmed. See `Tts.HandleMessage`.

## Model

| member | source | states |
|---|---|---|
| Bytes.U32FromBE | agent/src/services/tts.py:191 | an unsigned big-endian u32 is below 2^32 |
| Bytes.U32ToBE | agent/src/services/tts.py:160 | `struct.pack(">I", n)` gives four bytes that read back as n |
| Bytes.I32FromBE | agent/src/services/tts.py:187 | a signed big-endian i32 lies in [-2^31, 2^31) and is negative exactly when the top bit of byte 0 is set |
| Bytes.I32ToBE | agent/src/services/tts.py:187 | the four bytes of a signed i32 read back as that value |
| Bytes.U32BERoundTrip | agent/src/services/tts.py:160-161 | packing the u32 read from four bytes gives back those bytes |
| Pcm.SampleFromLE | agent/src/services/asr.py:263 | an int16 from its low and high byte is negative exactly when the high byte's top bit is set |
| Pcm.SampleToLE | agent/src/services/recorder.py:243 | the two little-endian bytes of a sample decode back to it |
| Pcm.SampleRoundTrip | agent/src/services/recorder.py:230-243 | decoding two bytes and encoding the sample gives the same bytes |
| Pcm.DecodeSamples | agent/src/services/asr.py:263 | an even-length buffer holds half as many int16 samples as bytes |
| Pcm.EncodeSamples | agent/src/services/recorder.py:243 | `tobytes()` writes two bytes per sample |
| Pcm.DecodeSampleAt | agent/src/services/asr.py:263 | decoded sample i comes from bytes 2i and 2i+1 |
| Pcm.DecodeEncode | agent/src/services/recorder.py:230-243 | decoding encoded samples gives the samples back |
| Pcm.EncodeDecode | agent/src/services/recorder.py:230-243 | encoding decoded samples gives the bytes back |
| Pcm.DecodeConcat | agent/src/services/recorder.py:230-231 | decoding distributes over concatenation at a sample boundary |
| Pcm.EncodeConcat | agent/src/services/recorder.py:243 | encoding distributes over concatenation |
| Pcm.Evens | agent/src/services/asr.py:268-273 | channel 0 of an interleaved stream has ceil(n/2) samples |
| Pcm.Odds | agent/src/services/recorder.py:241 | channel 1 has floor(n/2) samples |
| Pcm.EvensOddsAt | agent/src/services/asr.py:273 | element i of channel 0 is sample 2i, element i of channel 1 is sample 2i+1 |
| Pcm.Interleave | agent/src/services/recorder.py:234-241 | interleaving cuts both channels to the shorter one and has twice its length |
| Pcm.InterleaveAt | agent/src/services/recorder.py:240-241 | output 2i is left[i] and output 2i+1 is right[i] |
| Pcm.DeinterleaveInterleave | agent/src/services/recorder.py:234-241 | de-interleaving an interleaving of equal-length channels gives back both channels |
| Pcm.InterleaveDeinterleave | agent/src/services/asr.py:268-273 | re-interleaving the two channels of an even-length stream gives back the stream |
| Pcm.EvensConcat | agent/src/services/recorder.py:240 | channel 0 distributes over concatenation at an even position |
| Pcm.OddsConcat | agent/src/services/recorder.py:241 | channel 1 distributes over concatenation at an even position |
| Tts.RequestJsonFor | agent/src/services/tts.py:127-141 | the request object carries the app id, cluster, voice, rate, speed, request id and text given, with token "access_token", user "agent_user", encoding "pcm" and operation "submit" |
| Tts.RequestHeader | agent/src/services/tts.py:28-34 | the header's nibbles are version 1, header size 1, full-client type 1, flags 0, JSON 1, gzip 1 and a reserved zero byte |
| Tts.BuildFrame | agent/src/services/tts.py:145-161 | the frame exists exactly when the payload length fits in a u32; it is the header, the big-endian length and the payload, 8 + length bytes in all |
| Tts.BuildRequest | agent/src/services/tts.py:119-161 | the request frame exists exactly when the compressed request object fits a u32 length; it is the header, that length big-endian and the compressed object (see also `Tts.RequestCarriesFields`) |
| Tts.SplitRequest | agent/src/services/tts.py:160-161 | a split frame gives a 4-byte header and a payload of the declared length |
| Tts.SplitBuildFrame | agent/src/services/tts.py:144-161 | splitting a built frame gives back the header and exactly the payload |
| Tts.RequestCarriesFields | agent/src/services/tts.py:127-161 | a server that inflates the payload recovers the text, request id, voice, rate and speed, with operation "submit", encoding "pcm" and the client's app id and cluster |
| Tts.ParseResponse | agent/src/services/tts.py:163-200 | under 4 bytes gives (0, 0, empty); the type is byte 1's high nibble; non-audio types give no sequence and no payload; a payload always fits in the frame after its 8-byte (unflagged) or 12-byte (flagged) prefix; a non-zero sequence comes from a flagged frame at offset 4 |
| Tts.ParseAudioWithoutSequence | agent/src/services/tts.py:175-194 | with flags 0, the length is read at offset 4 and the payload starts at 8, or the payload is empty if it does not fit |
| Tts.ParseAudioWithSequence | agent/src/services/tts.py:185-200 | with flags set, the sequence is at 4, the length at 8 and the payload starts at 12; if the payload does not fit, the sequence is dropped |
| Tts.EncodeAudioFrame | agent/src/services/tts.py:175-194 | a well-formed audio frame is 8 or 12 bytes longer than its payload |
| Tts.ParseEncodedAudioFrame | agent/src/services/tts.py:163-194 | parsing an encoded audio frame gives back its payload and, when flagged, its sequence, whatever bytes follow |
| Tts.ParseTruncatedAudioFrame | agent/src/services/tts.py:185-200 | any truncation that keeps the header parses to an empty payload with sequence 0 |
| Tts.EvenTrim | agent/src/services/tts.py:96-97 | the trimmed payload is an even-length prefix, at most one byte shorter |
| Tts.HandleMessage | agent/src/services/tts.py:89-112 | a chunk is yielded exactly for an audio frame with a non-empty payload, and it is that payload trimmed to even length; the loop stops exactly on an audio frame with a negative sequence; an error frame or a transport error raises, and nothing else does |
| Tts.HandleEncodedAudioFrame | agent/src/services/tts.py:89-104 | a received audio frame yields its trimmed payload and stops exactly when it is flagged with a negative sequence |
| Tts.Synthesize | agent/src/services/tts.py:89-117 | every yielded chunk has even length, and there are at most as many chunks as messages; the chunks are the messages' own trimmed payloads in arrival order (`Tts.SynthesizeSnoc`) |
| Tts.SynthesizeSnoc | agent/src/services/tts.py:89-104 | until the loop leaves, no error is raised and each message appends its own trimmed chunk (`Tts.Yield`), if any, after the chunks of the messages before it, so the chunks are the payloads in arrival order |
| Tts.SynthesizeIgnoresAfterEnd | agent/src/services/tts.py:102-109 | nothing after a terminal frame or an error is read |
| Tts.SynthesizeSurfacesError | agent/src/services/tts.py:106-112 | an error reached before any terminal frame is raised, never dropped |
| Vad.VadStep | agent/src/services/vad.py:45-99 | after a frame one duration is zero; an event reports the new durations, and it is START exactly when the new state is speaking (the iff-lemmas below give when each event fires) |
| Vad.StepDurations | agent/src/services/vad.py:64-82 | an active frame zeroes silence and adds its duration to speech; an inactive frame does the opposite |
| Vad.StartOfSpeechIff | agent/src/services/vad.py:64-78 | START comes exactly when the engine was not speaking and the speech run reaches the start threshold; it sets speaking and reports silence 0 |
| Vad.EndOfSpeechIff | agent/src/services/vad.py:80-97 | END comes exactly when the engine was speaking and the silence run reaches the stop threshold; it clears speaking and reports speech 0 |
| Vad.EventIffFlagChanges | agent/src/services/vad.py:62-99 | a frame reports an event exactly when it flips the speaking flag |
| Vad.RunFrames | agent/src/services/vad.py:45-99 | a run reports at most one event per frame, and no frames change nothing (see also `Vad.EventsAlternate`) |
| Vad.EventsAlternate | agent/src/services/vad.py:45-99 | over any run, events alternate, starting with START from a silent engine; the engine is speaking afterwards exactly when an odd number of events flipped it |
| Vad.OneDurationZero | agent/src/services/vad.py:64-82 | after every frame, speech or silence is zero |
| Vad.VadEngine.constructor | agent/src/services/vad.py:29-43 | the engine starts silent with both durations 0 and keeps its thresholds |
| Vad.VadEngine.ProcessFrame | agent/src/services/vad.py:45-99 | the new state and the event are `VadStep` of the old state; one duration is zero |
| Vad.VadEngine.Reset | agent/src/services/vad.py:101-104 | not speaking, both durations zero |
| Recorder.SilenceFrame | agent/src/services/recorder.py:34 | 480 × 2 zero bytes |
| Recorder.Zeros | agent/src/services/recorder.py:34 | n zero bytes |
| Recorder.InterleaveStereo | agent/src/services/recorder.py:218-243 | the stereo output is twice as long as the shorter input |
| Recorder.InterleaveStereoSamples | agent/src/services/recorder.py:230-243 | the output has 2·min samples, stereo sample 2i is left sample i and 2i+1 is right sample i |
| Recorder.LeftChannel | agent/src/services/recorder.py:240 | the left channel of a stereo stream of whole sample pairs is half its length (it inverts the interleaving: `Recorder.ChannelsOfInterleaved`) |
| Recorder.RightChannel | agent/src/services/recorder.py:241 | the same for the right channel |
| Recorder.ChannelsOfInterleaved | agent/src/services/recorder.py:218-243 | reading back the two channels of equal-length interleaved buffers gives both buffers |
| Recorder.ChannelsConcat | agent/src/services/recorder.py:214-215 | channel extraction distributes over appending whole stereo samples |
| Recorder.FrameAt | agent/src/services/recorder.py:200-211 | the k-th frame a flush takes is always 960 bytes |
| Recorder.Mix | agent/src/services/recorder.py:198-216 | n iterations append n × 1920 bytes of whole stereo samples |
| Recorder.ChannelFrames | agent/src/services/recorder.py:200-211 | n frames of one channel are n × 960 bytes |
| Recorder.MixChannels | agent/src/services/recorder.py:198-216 | the mix's left channel is the user's frames and its right channel the agent's, frame for frame |
| Recorder.AppendStereoFrame | agent/src/services/recorder.py:213-215 | appending one interleaved pair appends each frame to its own channel |
| Recorder.MixAppend | agent/src/services/recorder.py:198-216 | one more iteration appends one more interleaved frame |
| Recorder.ChannelFramesPadded | agent/src/services/recorder.py:200-211 | past a buffer's complete frames, a flush takes silence |
| Recorder.ChannelFramesPrefix | agent/src/services/recorder.py:200-202 | the first n frames are the buffer's first n × 960 bytes |
| Recorder.FlushChannels | agent/src/services/recorder.py:185-216 | a flush writes max(user frames, agent frames) stereo frames; the left channel is the user's complete frames in order then silence, the right channel likewise for the agent |
| Recorder.RecordingPath | agent/src/services/recorder.py:85-87 | for a non-empty directory without a trailing slash and a relative session id, the path is the output directory, `/`, the session id (or "call" when it is absent or empty), `_`, the timestamp and `.wav` |
| Recorder.AudioRecorder.constructor | agent/src/services/recorder.py:44-68 | not recording, no file, empty buffers, all counters zero |
| Recorder.AudioRecorder.Start | agent/src/services/recorder.py:70-106 | while recording it returns the current path and changes nothing; otherwise it opens a new empty file and clears both buffers and all three counters |
| Recorder.AudioRecorder.Stop | agent/src/services/recorder.py:108-141 | returns none and changes nothing when not recording; otherwise it does one final flush, closes the file and returns its path; afterwards it is not recording, so a second stop returns none; sub-frame tails are never written |
| Recorder.AudioRecorder.WriteUserFrame | agent/src/services/recorder.py:143-156 | a no-op when not recording; otherwise appends to the user buffer only and adds len//960 to the user counter |
| Recorder.AudioRecorder.WriteAgentFrame | agent/src/services/recorder.py:158-171 | the same for the agent channel |
| Recorder.AudioRecorder.FlushBuffers | agent/src/services/recorder.py:179-216 | a no-op with no file or no complete frame; otherwise appends `Mix` of the buffers for max(frames) iterations, adds that to the synced count and leaves each buffer with its sub-frame tail |
| Recorder.WriteFrames | agent/src/services/recorder.py:198-216 | the loop appends `Mix` of the starting buffers and leaves what is left after n frames |
| Recorder.NextFrame | agent/src/services/recorder.py:200-211 | one channel's step takes the next complete frame, or silence and the buffer untouched |
| Recorder.Remaining | agent/src/services/recorder.py:198-211 | once every complete frame is taken, what is left is the sub-frame tail |
| Recorder.TakeFrame | agent/src/services/recorder.py:200-211 | iteration i finds a complete frame exactly while i is below the buffer's frame count; the frame is the i-th, or silence afterwards |
| Asr.TrimStart | agent/src/services/asr.py:229 | the result is a suffix, everything dropped is whitespace and the result does not start with whitespace |
| Asr.TrimEnd | agent/src/services/asr.py:229 | the result is a prefix, everything dropped is whitespace and the result does not end with whitespace |
| Asr.Strip | agent/src/services/asr.py:229 | the stripped text is no longer than the text and neither starts nor ends with whitespace |
| Asr.StripIsTrimmedSlice | agent/src/services/asr.py:229 | `strip()` gives a slice with only whitespace around it, and that slice neither starts nor ends with whitespace |
| Asr.StripEmptyIff | agent/src/services/asr.py:239-247 | the stripped text is empty exactly when the text is all whitespace |
| Asr.StripIdempotent | agent/src/services/asr.py:229-246 | stripping twice is stripping once |
| Asr.Lookback | agent/src/services/asr.py:186-187 | the deque keeps the last min(n, 25) chunks appended |
| Asr.LookbackAppend | agent/src/services/asr.py:186-187 | truncating after every append keeps the same chunks as truncating once |
| Asr.ResetState | agent/src/services/asr.py:104-112 | the window is kept, and the reset state satisfies the between-calls invariant exactly when the window does |
| Asr.ResetIdempotent | agent/src/services/asr.py:104-112 | a second reset changes nothing further |
| Asr.IsVoiceActive | agent/src/services/asr.py:178-183 | at or above START a chunk is always active and below END never; while idle it is active exactly at or above START |
| Asr.Feed | agent/src/services/asr.py:178-218 | the recogniser is speaking afterwards exactly when it was or the chunk is active; while speaking the chunk is the last one fed; a quiet idle chunk only joins the window; the last interim text is kept |
| Asr.Conclude | agent/src/services/asr.py:223-251 | a result needs speaking and is the non-empty stripped hypothesis; it is final exactly on an inactive chunk and then the state is reset; an interim result differs from the last one and becomes it |
| Asr.Step | agent/src/services/asr.py:161-251 | every result is non-empty; it is final exactly when the chunk is inactive, which happens only while speaking and leaves the recogniser idle with an empty stream; an interim result differs from the previous one and replaces it |
| Asr.StepPreservesInv | agent/src/services/asr.py:161-251 | each call keeps silence < 25 and the window ≤ 25 chunks; while idle the silence count is 0, and nothing is accepted or reported |
| Asr.IdleQuietStep | agent/src/services/asr.py:178-216 | idle and below START: still idle, the chunk is appended to the window, nothing goes to the decoder and there is no result |
| Asr.OnsetStep | agent/src/services/asr.py:186-251 | onset: the decoder gets the window (ending with the trigger), then the trigger again; the window is empty; the state is speaking with silence 0 and peak max(old, rms); an interim result comes exactly when the stripped text is non-empty and new |
| Asr.SpeakingActiveStep | agent/src/services/asr.py:181-218 | speaking and at or above END: the chunk is fed, silence is 0, the peak is max(old, rms), any result is interim |
| Asr.SpeakingQuietStep | agent/src/services/asr.py:216-242 | speaking and below END: the chunk is fed; the 25th such chunk resets, with a final result exactly when the stripped text is non-empty; before that, only the silence count grows |
| Asr.InterimIff | agent/src/services/asr.py:245-251 | an interim result comes exactly on an active chunk whose stripped hypothesis is non-empty and differs from the last one |
| Asr.FinalOnlyAtEndpoint | agent/src/services/asr.py:223-242 | final results come only from the 25th consecutive inactive chunk while speaking |
| Asr.Chunks | agent/src/services/asr.py:161-163 | one chunk per input |
| Asr.Run | agent/src/services/asr.py:161-251 | one result per call |
| Asr.RunPreservesInv | agent/src/services/asr.py:161-251 | any run of calls keeps the invariant |
| Asr.IdleQuietRun | agent/src/services/asr.py:178-216 | from idle, any run of chunks below START stays idle, feeds nothing and reports nothing |
| Asr.IdleQuietWindow | agent/src/services/asr.py:186-187 | after that run, the window holds the last 25 chunks seen |
| Asr.OnsetAfterIdleRun | agent/src/services/asr.py:186-218 | from a fresh idle state, quiet chunks then a trigger: the decoder gets the last 25 of (quiet chunks, trigger), then the trigger again, and the window is empty |
| Asr.TriggerFedTwice | agent/src/services/asr.py:186-218 | with fewer than 25 quiet chunks, the decoder gets each of them in order, then the trigger twice |
| Asr.OnsetFeeds | agent/src/services/asr.py:195-218 | an onset empties the window into the decoder, then feeds the trigger |
| Asr.FedAfterIdleRun | agent/src/services/asr.py:187-208 | what the decoder receives at onset after quiet chunks were appended to an empty window |
| Asr.LookbackShort | agent/src/services/asr.py:186-187 | fewer than 25 quiet chunks all survive in the window |
| Asr.LookbackCons | agent/src/services/asr.py:186-187 | the window after one chunk and then the rest is the window after all of them |
| Asr.SpeakingQuietRun | agent/src/services/asr.py:216-227 | speaking, a quiet run short of 25: every chunk is fed, silence grows by the run's length, no results |
| Asr.EndpointAfter25 | agent/src/services/asr.py:223-242 | right after an active chunk, 24 inactive chunks give nothing and the 25th resets, with a final result exactly when the stripped text over everything fed is non-empty |
| Asr.RunSingle | agent/src/services/asr.py:161-251 | a run of one call is that call |
| Asr.RunConcat | agent/src/services/asr.py:161-251 | a run over two pieces is the run over the first followed by the run over the second |
| Asr.ChunksConcat | agent/src/services/asr.py:161-163 | chunks distribute over concatenation |
| Asr.ChunkFor | agent/src/services/asr.py:169-172 | 16 kHz input is the chunk itself; any other rate's chunk is a resampled chunk of that rate over the input, at position 0 for a rate not yet cached and at the cached position otherwise (see `Asr.ResamplerPositionsAdvance`) |
| Asr.NextPositions | agent/src/services/asr.py:145-172 | 16 kHz leaves the cache alone; any other rate gains or keeps its entry |
| Asr.NextPositionsFromCache | agent/src/services/asr.py:150-172 | finding or creating the entry, then feeding it one chunk, advances that rate by one |
| Asr.ResamplerPositionsAdvance | agent/src/services/asr.py:145-172 | 16 kHz input passes through untouched; any other rate's chunk is that rate's next output, and every other rate is unchanged |
| Asr.Stream.constructor | agent/src/services/asr.py:106 | a fresh stream has accepted nothing |
| Asr.Stream.AcceptWaveform | agent/src/services/asr.py:204-218 | the chunk is appended to what the stream accepted |
| Asr.Resampler.constructor | agent/src/services/asr.py:151-156 | a new resampler for a rate starts at position 0 |
| Asr.Resampler.ResampleChunk | agent/src/services/asr.py:172 | the output is this stream's next chunk, and the position advances by one |
| Asr.LocalAsr.constructor | agent/src/services/asr.py:47-102 | idle, with a fresh stream, silence 0, peak 0, no last text, an empty window and no resamplers |
| Asr.LocalAsr.Reset | agent/src/services/asr.py:104-112 | a fresh stream and `ResetState` of the old state; the window and the resamplers are kept |
| Asr.LocalAsr.GetResampler | agent/src/services/asr.py:145-159 | none for 16 kHz; otherwise the cached resampler for the rate, created at position 0 on the first call and the same object on every later call |
| Asr.LocalAsr.ProcessAudio | agent/src/services/asr.py:161-251 | the new state and the result are `Step` of the old state on the resampled chunk; the cache advances by `NextPositions`, and the invariant is kept |
| Asr.LocalAsr.Resample | agent/src/services/asr.py:169-172 | the chunk is `ChunkFor` of the cache, and the cache advances by one at that rate |
| Asr.LocalAsr.ProcessResampled | agent/src/services/asr.py:174-251 | steps 2 to 7 compute `Step` of the old state |
| Asr.LocalAsr.ConcludeChunk | agent/src/services/asr.py:223-251 | endpoint detection and the interim result compute `Conclude` |
| Asr.LocalAsr.FlushWindow | agent/src/services/asr.py:204-208 | every window chunk goes to the decoder in order, then the window is empty |
| Asr.LocalAsr.FeedChunk | agent/src/services/asr.py:178-218 | the threshold that applies, the window update, the onset flush and the feed compute `Feed` |
| Asr.AudioFrameToInt16 | agent/src/services/asr.py:254-281 | the output has len/4 samples for two channels and an even sample count, and len/2 (rounded down) otherwise |
| Asr.AudioFrameAllSamples | agent/src/services/asr.py:259-281 | with one channel, or two and an odd sample count, sample i comes from bytes 2i and 2i+1, and an odd last byte is ignored |
| Asr.AudioFrameChannelZero | agent/src/services/asr.py:259-275 | with two channels and an even sample count, output sample i is input sample 2i, from bytes 4i and 4i+1 |
| Asr.StereoTakesLeftChannel | agent/src/services/asr.py:266-275 | on interleaved stereo, the output is exactly the left channel, never averaged with the right |

Proof helpers with no counterpart in the code, which need no row: `Bytes.ByteDivMod`, `Pcm.EvenLength`, `Pcm.Min`, `Vad.Expected`, `Vad.ExpectedShift`, `Asr.AllBelow`, `Asr.AllNone`, `Asr.AllBelowTail`, `Asr.AllBelowPrefix`, `Asr.AllNoneCons`.

## Left out

- Resampling numerics (`soxr`) and RMS arithmetic are floating point. A resampled chunk is an opaque value carrying its source rate, its position in that resampler's stream and the input chunk. A chunk's energy is a `real` given with it, so `_calculate_rms` is not modelled.
- The sherpa-onnx recogniser is a foreign model: its loading, the model-file checks and the `is_ready`/`decode_stream` loop (`asr.py:220-221`) are not modelled. The decoder is a stream of accepted chunks, and the hypothesis text is a function of those chunks given to `LocalAsr`'s constructor.
- The `/ 32768.0` float scaling in `audio_frame_to_float32` is left out, because it is floating point. Samples are read little-endian, as `np.frombuffer` does on the target and as WAV stores them.
- The debug audio buffer and its WAV dump, logging and `time.perf_counter` are diagnostics with no effect on results.
- Asr.LocalAsr.ProcessAudio: the energy is a parameter rather than computed from the resampled chunk.
- Vad.VadStep: durations are exact reals, not IEEE doubles, so a threshold reached exactly can fire one frame earlier than in the source. For example, 1600-sample frames at 16 kHz last 0.1 s (`vad.py:59`); in floating point eight of them sum to 0.7999999999999999 (`vad.py:82`), just short of the default 0.8 s stop threshold (`vad.py:33`, `vad.py:86`). So the source reports END on the ninth frame, while the model, where the sum is exactly 0.8, reports it on the eighth. The speech sum (`vad.py:66`) can fall short of the start threshold (`vad.py:70`) in the same way.
- In `VADEngine`, `time.time`, the RMS computation and the `10 ** (db / 20)` threshold are left out: activity and frame duration are given per frame, and events carry no timestamp.
- The recorder's asyncio `_periodic_flush` task and its cancellation are not modelled. `FlushBuffers` is its body; the single-threaded event loop makes each flush atomic with respect to the writes.
- Recorder.RecordingPath: the path is joined as a string, not with pathlib's normalising `/` (`recorder.py:51`, `recorder.py:87`). So the model differs for an empty or `.` output directory (pathlib writes `call_<ts>.wav` in the working directory, the model `/call_<ts>.wav`), for a trailing slash (pathlib drops the doubled `/`), and for an absolute session id such as `/tmp/x` (pathlib then ignores the output directory).
- WAV headers, file I/O, directory creation and the clock are not modelled. The file is its sequence of data bytes, and the timestamp in the file name is a parameter of `Start`.
- Recorder.WriteFrames: the loop works on local copies of the buffers and the WAV data, which are written back once. The source deletes from the buffers in place on each iteration, and the end state is the same.
- Recorder.InterleaveStereo: an odd-length buffer, which `np.frombuffer` rejects with an exception, is excluded by a precondition. Every caller passes 960-byte frames.
- gzip, JSON serialisation and the random request id are opaque: the compressed payload is a function of the request object, and the request id is a parameter.
- The aiohttp websocket session, the bearer header and credentials from the environment are I/O. The streaming loop is a fold over the messages received.
- Tts.Synthesize: the outer handler that logs and re-raises every exception is not modelled, only the error each message raises. The error-frame message is always "VolcEngine Error: b''", because the parser keeps no payload for error frames.
- The rest of the repository (database, token server, SIP setup, the CLI, session orchestration, framework plugins, the LLM client) is glue and is not part of this model.

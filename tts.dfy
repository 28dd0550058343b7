/**
 * The binary frame codec of the Volcengine streaming synthesis client
 * (protocol V1 over a websocket): building the full-client request frame,
 * parsing a response frame, and the per-frame decision the streaming loop
 * takes on each received message.
 *
 * gzip, JSON and the random request id are opaque: the compressed JSON
 * payload is a parameter (`compress`), and the request id a given string.
 */
module Tts {
  import opened Wrappers
  import opened Bytes

  const ProtocolVersion: nat := 1
  const HeaderSize: nat := 1
  const MessageTypeFullClient: nat := 1
  const MessageTypeAudioOnly: nat := 11
  const MessageTypeError: nat := 15
  const MessageSerializationJson: nat := 1
  const MessageCompressionGzip: nat := 1

  /** The client's configuration; credentials come from the caller (or the environment, not modelled). */
  datatype TtsClient = TtsClient(appId: Option<string>, accessToken: Option<string>, cluster: string)

  /** The JSON object sent with a synthesis request, section by section. */
  datatype AppSection = AppSection(appId: Option<string>, token: string, cluster: string)
  datatype UserSection = UserSection(uid: string)
  datatype AudioSection = AudioSection(voiceType: string, encoding: string, speedRatio: real, rate: int)
  datatype RequestSection = RequestSection(reqId: string, text: string, operation: string)
  datatype RequestJson = RequestJson(app: AppSection, user: UserSection, audio: AudioSection, request: RequestSection)

  /** A parsed response: message type, sequence number and payload. */
  datatype ResponseFrame = ResponseFrame(msgType: nat, sequence: int, payload: seq<byte>)

  /** The request object `_build_request` serialises. */
  function RequestJsonFor(client: TtsClient, reqId: string, text: string, voiceType: string,
                          sampleRate: int, speedRatio: real): (r: RequestJson)
    ensures r.request.reqId == reqId && r.request.text == text && r.request.operation == "submit"
    ensures r.audio.voiceType == voiceType && r.audio.rate == sampleRate && r.audio.speedRatio == speedRatio
    ensures r.audio.encoding == "pcm"
    ensures r.app.appId == client.appId && r.app.cluster == client.cluster && r.app.token == "access_token"
    ensures r.user.uid == "agent_user"
  {
    RequestJson(
      AppSection(client.appId, "access_token", client.cluster),
      UserSection("agent_user"),
      AudioSection(voiceType, "pcm", speedRatio, sampleRate),
      RequestSection(reqId, text, "submit"))
  }

  /**
   * The fixed request header. Each byte packs two 4-bit fields, high nibble
   * first: version | header size, message type | flags, serialisation |
   * compression, reserved.
   */
  function RequestHeader(): (h: seq<byte>)
    ensures |h| == 4
    ensures h[0] / 16 == ProtocolVersion && h[0] % 16 == HeaderSize
    ensures h[1] / 16 == MessageTypeFullClient && h[1] % 16 == 0
    ensures h[2] / 16 == MessageSerializationJson && h[2] % 16 == MessageCompressionGzip
    ensures h[3] == 0
  {
    [0x11, 0x10, 0x11, 0x00]
  }

  /**
   * The request frame for an already compressed payload: header, the
   * payload length as a big-endian u32, the payload. `struct.pack(">I", ...)`
   * raises when the length does not fit in 32 bits.
   */
  function BuildFrame(payload: seq<byte>): (r: Result<seq<byte>>)
    ensures r.Ok? <==> |payload| < Two32
    ensures r.Ok? ==> && |r.value| == 8 + |payload|
                      && r.value[..4] == RequestHeader()
                      && U32FromBE(r.value[4..8]) == |payload|
                      && r.value[8..] == payload
  {
    if |payload| < Two32 then Ok(RequestHeader() + U32ToBE(|payload|) + payload)
    else Err("'I' format requires 0 <= number <= 4294967295")
  }

  /** `_build_request`: the request object, serialised and compressed by `compress`, framed. */
  function BuildRequest(client: TtsClient, reqId: string, text: string, voiceType: string,
                        sampleRate: int, speedRatio: real, compress: RequestJson -> seq<byte>): (r: Result<seq<byte>>)
    ensures var payload := compress(RequestJsonFor(client, reqId, text, voiceType, sampleRate, speedRatio));
            && (r.Ok? <==> |payload| < Two32)
            && (r.Ok? ==> |r.value| == 8 + |payload| && r.value[..4] == RequestHeader() && U32FromBE(r.value[4..8]) == |payload| && r.value[8..] == payload)
  {
    BuildFrame(compress(RequestJsonFor(client, reqId, text, voiceType, sampleRate, speedRatio)))
  }

  /**
   * How the service reads a full-client request frame: the header and the
   * payload named by the length field; the inverse of BuildFrame.
   */
  function SplitRequest(frame: seq<byte>): (r: Option<(seq<byte>, seq<byte>)>)
    ensures r.Some? ==> |r.value.0| == 4 && 8 + |r.value.1| == |frame|
  {
    if |frame| < 8 || U32FromBE(frame[4..8]) != |frame| - 8 then None
    else Some((frame[..4], frame[8..]))
  }

  /** Splitting a built request frame gives back the header and exactly the payload. */
  lemma {:induction false} SplitBuildFrame(payload: seq<byte>)
    requires |payload| < Two32
    ensures SplitRequest(BuildFrame(payload).value) == Some((RequestHeader(), payload))
  {
    var f := BuildFrame(payload).value;
    assert f[4..8] == U32ToBE(|payload|);
  }

  /**
   * Whatever the request object, a server that inflates and parses the
   * payload (`decompress`, the inverse of `compress`) recovers the text, the
   * rate, the request id, the voice and the speed, with operation "submit"
   * and encoding "pcm".
   */
  lemma {:induction false} RequestCarriesFields(client: TtsClient, reqId: string, text: string, voiceType: string,
                                                sampleRate: int, speedRatio: real,
                                                compress: RequestJson -> seq<byte>,
                                                decompress: seq<byte> -> Option<RequestJson>)
    requires decompress(compress(RequestJsonFor(client, reqId, text, voiceType, sampleRate, speedRatio)))
             == Some(RequestJsonFor(client, reqId, text, voiceType, sampleRate, speedRatio))
    requires |compress(RequestJsonFor(client, reqId, text, voiceType, sampleRate, speedRatio))| < Two32
    ensures var f := BuildRequest(client, reqId, text, voiceType, sampleRate, speedRatio, compress);
            && f.Ok?
            && |f.value| == 8 + |compress(RequestJsonFor(client, reqId, text, voiceType, sampleRate, speedRatio))|
            && SplitRequest(f.value).Some?
            && SplitRequest(f.value).value.0 == RequestHeader()
            && var j := decompress(SplitRequest(f.value).value.1);
               && j.Some?
               && j.value.request == RequestSection(reqId, text, "submit")
               && j.value.audio == AudioSection(voiceType, "pcm", speedRatio, sampleRate)
               && j.value.app.appId == client.appId && j.value.app.cluster == client.cluster
  {
    SplitBuildFrame(compress(RequestJsonFor(client, reqId, text, voiceType, sampleRate, speedRatio)));
  }

  /**
   * `_parse_response`. Frames shorter than four bytes give (0, 0, empty).
   * The message type is the high nibble of byte 1 and the flags its low
   * nibble. An audio-only frame with non-zero flags carries a signed
   * sequence number at offset 4; then a u32 payload length and the payload.
   * Any field or payload that does not fit, and any other message type
   * (the error type included), give (type, 0, empty).
   */
  function ParseResponse(data: seq<byte>): (r: ResponseFrame)
    ensures |data| < 4 ==> r == ResponseFrame(0, 0, [])
    ensures |data| >= 4 ==> r.msgType == data[1] / 16
    ensures r.msgType != MessageTypeAudioOnly ==> r.sequence == 0 && r.payload == []
    ensures r.payload != [] ==> |data| >= 4 && (if data[1] % 16 != 0 then 12 else 8) + |r.payload| <= |data|
    ensures r.sequence != 0 ==> |data| >= 12 && data[1] % 16 != 0 && r.sequence == I32FromBE(data[4..8])
  {
    if |data| < 4 then ResponseFrame(0, 0, [])
    else
      var byte1 := data[1];
      var msgType := byte1 / 16;
      var typeFlags := byte1 % 16;
      if msgType == MessageTypeAudioOnly then
        var sequence := if typeFlags != 0 && |data| >= 8 then I32FromBE(data[4..8]) else 0;
        var offset := if typeFlags != 0 && |data| >= 8 then 8 else 4;
        if |data| >= offset + 4 then
          var payloadSize := U32FromBE(data[offset .. offset + 4]);
          if |data| >= offset + 4 + payloadSize then
            ResponseFrame(msgType, sequence, data[offset + 4 .. offset + 4 + payloadSize])
          else ResponseFrame(msgType, 0, [])
        else ResponseFrame(msgType, 0, [])
      else ResponseFrame(msgType, 0, [])
  }

  /** An audio-only frame without flags: length at offset 4, payload from offset 8. */
  lemma {:induction false} ParseAudioWithoutSequence(data: seq<byte>)
    requires |data| >= 8 && data[1] == MessageTypeAudioOnly * 16
    ensures var size := U32FromBE(data[4..8]);
            ParseResponse(data) ==
              if |data| >= 8 + size then ResponseFrame(MessageTypeAudioOnly, 0, data[8 .. 8 + size])
              else ResponseFrame(MessageTypeAudioOnly, 0, [])
  {
  }

  /** With non-zero flags: sequence at offset 4, length at 8, payload from 12; the sequence is dropped when the payload does not fit. */
  lemma {:induction false} ParseAudioWithSequence(data: seq<byte>)
    requires |data| >= 12 && data[1] / 16 == MessageTypeAudioOnly && data[1] % 16 != 0
    ensures var size := U32FromBE(data[8..12]);
            ParseResponse(data) ==
              if |data| >= 12 + size then ResponseFrame(MessageTypeAudioOnly, I32FromBE(data[4..8]), data[12 .. 12 + size])
              else ResponseFrame(MessageTypeAudioOnly, 0, [])
  {
  }

  /**
   * A well-formed audio-only frame as the service sends it, the frame
   * ParseResponse decodes: header, the sequence when the flags are
   * non-zero, the length, the payload.
   */
  function EncodeAudioFrame(flags: nat, sequence: int, payload: seq<byte>): (f: seq<byte>)
    requires flags < 16 && -Two31 <= sequence < Two31 && |payload| < Two32
    ensures |f| == (if flags != 0 then 12 else 8) + |payload|
  {
    [0x11, MessageTypeAudioOnly * 16 + flags, 0x10, 0x00]
      + (if flags != 0 then I32ToBE(sequence) else [])
      + U32ToBE(|payload|)
      + payload
  }

  /** Parsing an encoded audio frame, whatever follows it, gives back its payload and (when flagged) its sequence. */
  lemma {:induction false} ParseEncodedAudioFrame(flags: nat, sequence: int, payload: seq<byte>, trailing: seq<byte>)
    requires flags < 16 && -Two31 <= sequence < Two31 && |payload| < Two32
    ensures ParseResponse(EncodeAudioFrame(flags, sequence, payload) + trailing)
            == ResponseFrame(MessageTypeAudioOnly, if flags != 0 then sequence else 0, payload)
  {
    var f := EncodeAudioFrame(flags, sequence, payload);
    var d := f + trailing;
    assert d[1] == MessageTypeAudioOnly * 16 + flags;
    if flags != 0 {
      assert d[4..8] == I32ToBE(sequence);
      assert d[8..12] == U32ToBE(|payload|);
      assert d[12 .. 12 + |payload|] == payload;
    } else {
      assert d[4..8] == U32ToBE(|payload|);
      assert d[8 .. 8 + |payload|] == payload;
    }
  }

  /** Every truncation of an audio frame that keeps the four header bytes parses to an empty payload, without the sequence. */
  lemma {:induction false} ParseTruncatedAudioFrame(flags: nat, sequence: int, payload: seq<byte>, k: nat)
    requires flags < 16 && -Two31 <= sequence < Two31 && |payload| < Two32
    requires 4 <= k < |EncodeAudioFrame(flags, sequence, payload)|
    ensures ParseResponse(EncodeAudioFrame(flags, sequence, payload)[..k]) == ResponseFrame(MessageTypeAudioOnly, 0, [])
  {
    var f := EncodeAudioFrame(flags, sequence, payload);
    var d := f[..k];
    assert d[1] == MessageTypeAudioOnly * 16 + flags;
    if flags != 0 && k >= 12 {
      assert d[8..12] == U32ToBE(|payload|);
    } else if flags == 0 && k >= 8 {
      assert d[4..8] == U32ToBE(|payload|);
    }
  }

  /** A websocket message as the receive loop sees it. */
  datatype WsMessage = Binary(data: seq<byte>) | TransportError | OtherMessage

  /** What the loop does with one message: yield (or not) and go on or stop, or raise. */
  datatype FrameAction = Continue(chunk: Option<seq<byte>>, stop: bool) | Raise(message: string)

  /** Audio samples are 16-bit: an odd trailing byte is cut off. */
  function EvenTrim(data: seq<byte>): (r: seq<byte>)
    ensures |r| % 2 == 0 && |data| - 1 <= |r| <= |data|
    ensures r == data[..|r|]
  {
    if |data| % 2 != 0 then data[..|data| - 1] else data
  }

  /** The per-message branch of `synthesize_stream`. */
  function HandleMessage(m: WsMessage): (a: FrameAction)
    ensures a.Continue? && a.chunk.Some? ==> |a.chunk.value| % 2 == 0
    ensures a.Continue? && a.chunk.Some? ==>
              m.Binary? && ParseResponse(m.data).msgType == MessageTypeAudioOnly
              && ParseResponse(m.data).payload != []
              && a.chunk.value == EvenTrim(ParseResponse(m.data).payload)
    ensures m.Binary? && ParseResponse(m.data).msgType == MessageTypeAudioOnly && ParseResponse(m.data).payload != [] ==>
              a == Continue(Some(EvenTrim(ParseResponse(m.data).payload)), ParseResponse(m.data).sequence < 0)
    ensures a.Continue? && a.stop <==>
              m.Binary? && ParseResponse(m.data).msgType == MessageTypeAudioOnly && ParseResponse(m.data).sequence < 0
    ensures a.Raise? <==> m.TransportError? || (m.Binary? && ParseResponse(m.data).msgType == MessageTypeError)
  {
    match m
    case Binary(data) =>
      var f := ParseResponse(data);
      if f.msgType == MessageTypeAudioOnly then
        Continue(if f.payload != [] then Some(EvenTrim(f.payload)) else None, f.sequence < 0)
      else if f.msgType == MessageTypeError then
        // the parser keeps no payload for error frames, so the message is always the same
        Raise("VolcEngine Error: b''")
      else Continue(None, false)
    case TransportError => Raise("WebSocket connection closed with error")
    case OtherMessage => Continue(None, false)
  }

  /** A received audio frame with a non-empty payload yields that payload trimmed to even length and stops iff it is flagged with a negative sequence. */
  lemma {:induction false} HandleEncodedAudioFrame(flags: nat, sequence: int, payload: seq<byte>)
    requires flags < 16 && -Two31 <= sequence < Two31 && |payload| < Two32 && payload != []
    ensures HandleMessage(Binary(EncodeAudioFrame(flags, sequence, payload)))
            == Continue(Some(EvenTrim(payload)), flags != 0 && sequence < 0)
  {
    ParseEncodedAudioFrame(flags, sequence, payload, []);
    assert EncodeAudioFrame(flags, sequence, payload) + [] == EncodeAudioFrame(flags, sequence, payload);
  }

  /** What one synthesis request produces: the chunks yielded, and the error raised, if any. */
  datatype SynthesisOutcome = SynthesisOutcome(chunks: seq<seq<byte>>, error: Option<string>)

  /** True when the loop leaves after this message (terminal frame or raise). */
  predicate Ends(m: WsMessage)
  {
    var a := HandleMessage(m);
    a.Raise? || a.stop
  }

  /** The chunk, if any, that one message makes the loop yield. */
  function Yield(m: WsMessage): seq<seq<byte>>
  {
    var a := HandleMessage(m);
    if a.Continue? && a.chunk.Some? then [a.chunk.value] else []
  }

  /** The receive loop of `synthesize_stream` over the messages the socket delivers. */
  function Synthesize(msgs: seq<WsMessage>): (r: SynthesisOutcome)
    ensures forall i :: 0 <= i < |r.chunks| ==> |r.chunks[i]| % 2 == 0
    ensures |r.chunks| <= |msgs|
    decreases |msgs|
  {
    if msgs == [] then SynthesisOutcome([], None)
    else
      match HandleMessage(msgs[0])
      case Raise(e) => SynthesisOutcome([], Some(e))
      case Continue(c, stop) =>
        var here := if c.Some? then [c.value] else [];
        if stop then SynthesisOutcome(here, None)
        else
          var rest := Synthesize(msgs[1..]);
          SynthesisOutcome(here + rest.chunks, rest.error)
  }

  /** Nothing after a terminal frame or an error is read. */
  lemma {:induction false} SynthesizeIgnoresAfterEnd(prefix: seq<WsMessage>, m: WsMessage, rest: seq<WsMessage>)
    requires Ends(m)
    ensures Synthesize(prefix + [m] + rest) == Synthesize(prefix + [m])
    decreases |prefix|
  {
    if prefix == [] {
      assert ([m] + rest)[1..] == rest;
    } else {
      assert (prefix + [m] + rest)[0] == prefix[0] && (prefix + [m])[0] == prefix[0];
      assert (prefix + [m] + rest)[1..] == prefix[1..] + [m] + rest;
      assert (prefix + [m])[1..] == prefix[1..] + [m];
      SynthesizeIgnoresAfterEnd(prefix[1..], m, rest);
    }
  }

  /** An error frame (or a transport error) reached before any terminal frame surfaces as a raised error. */
  lemma {:induction false} SynthesizeSurfacesError(prefix: seq<WsMessage>, m: WsMessage)
    requires forall i :: 0 <= i < |prefix| ==> !Ends(prefix[i])
    requires HandleMessage(m).Raise?
    ensures Synthesize(prefix + [m]).error == Some(HandleMessage(m).message)
    decreases |prefix|
  {
    if prefix == [] {
    } else {
      assert (prefix + [m])[0] == prefix[0];
      assert (prefix + [m])[1..] == prefix[1..] + [m];
      assert !Ends(prefix[0]);
      SynthesizeSurfacesError(prefix[1..], m);
    }
  }

  /**
   * Until the loop leaves, each message adds its own chunk, if any, after
   * those of the messages before it: the chunks are the messages' trimmed
   * payloads in arrival order.
   */
  lemma {:induction false} SynthesizeSnoc(prefix: seq<WsMessage>, m: WsMessage)
    requires forall i :: 0 <= i < |prefix| ==> !Ends(prefix[i])
    ensures Synthesize(prefix).error == None
    ensures Synthesize(prefix + [m]).chunks == Synthesize(prefix).chunks + Yield(m)
    decreases |prefix|
  {
    if prefix == [] {
      assert [m][1..] == [];
    } else {
      assert (prefix + [m])[0] == prefix[0];
      assert (prefix + [m])[1..] == prefix[1..] + [m];
      assert !Ends(prefix[0]);
      SynthesizeSnoc(prefix[1..], m);
    }
  }
}

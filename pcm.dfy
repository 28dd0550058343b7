/**
 * 16-bit little-endian PCM as the recogniser and the recorder lay it out
 * (`np.frombuffer(..., dtype=np.int16)` and `ndarray.tobytes()` on a
 * little-endian host, which is also the WAV sample order), and the
 * sample-by-sample interleaving of two mono channels into one stereo stream.
 */
module Pcm {
  import opened Bytes

  type int16 = x: int | -0x8000 <= x < 0x8000

  /** One sample from its low and high byte (two's complement). */
  function SampleFromLE(lo: byte, hi: byte): (x: int16)
    ensures x < 0 <==> hi >= 0x80
  {
    var u := (hi as int) * 0x100 + lo;
    if u >= 0x8000 then u - 0x1_0000 else u
  }

  /** The two bytes of one sample, low byte first. */
  function SampleToLE(x: int16): (b: seq<byte>)
    ensures |b| == 2 && SampleFromLE(b[0], b[1]) == x
  {
    var u := if x < 0 then x + 0x1_0000 else x;
    ByteDivMod(u, u / 0x100, u % 0x100);
    [u % 0x100, u / 0x100]
  }

  lemma SampleRoundTrip(lo: byte, hi: byte)
    ensures SampleToLE(SampleFromLE(lo, hi)) == [lo, hi]
  {
    var u := (hi as int) * 0x100 + lo;
    ByteDivMod(u, hi, lo);
  }

  /** Reading a byte buffer of even length as int16 samples. */
  function DecodeSamples(b: seq<byte>): (s: seq<int16>)
    requires |b| % 2 == 0
    ensures 2 * |s| == |b|
    decreases |b|
  {
    if b == [] then [] else [SampleFromLE(b[0], b[1])] + DecodeSamples(b[2..])
  }

  /** A buffer of 2k bytes holds a whole number of samples. */
  lemma EvenLength(n: int, k: int)
    requires n == 2 * k
    ensures n % 2 == 0
  {
  }

  /** Writing int16 samples as bytes, two per sample. */
  function EncodeSamples(s: seq<int16>): (b: seq<byte>)
    ensures |b| == 2 * |s|
    decreases |s|
  {
    if s == [] then [] else SampleToLE(s[0]) + EncodeSamples(s[1..])
  }

  /** Sample i of a decoded buffer comes from bytes 2i (low) and 2i+1 (high). */
  lemma {:induction false} DecodeSampleAt(b: seq<byte>, i: nat)
    requires |b| % 2 == 0 && i < |b| / 2
    ensures DecodeSamples(b)[i] == SampleFromLE(b[2 * i], b[2 * i + 1])
    decreases i
  {
    if i > 0 {
      DecodeSampleAt(b[2..], i - 1);
    }
  }

  lemma {:induction false} DecodeEncode(s: seq<int16>)
    ensures DecodeSamples(EncodeSamples(s)) == s
    decreases |s|
  {
    if s != [] {
      var b := EncodeSamples(s);
      assert b[2..] == EncodeSamples(s[1..]);
      DecodeEncode(s[1..]);
    }
  }

  lemma {:induction false} EncodeDecode(b: seq<byte>)
    requires |b| % 2 == 0
    ensures EncodeSamples(DecodeSamples(b)) == b
    decreases |b|
  {
    if b != [] {
      var s := DecodeSamples(b);
      assert s[1..] == DecodeSamples(b[2..]);
      EncodeDecode(b[2..]);
      SampleRoundTrip(b[0], b[1]);
      assert b == [b[0], b[1]] + b[2..];
    }
  }

  /** Decoding distributes over concatenation at a sample boundary. */
  lemma {:induction false} DecodeConcat(x: seq<byte>, y: seq<byte>)
    requires |x| % 2 == 0 && |y| % 2 == 0
    ensures DecodeSamples(x + y) == DecodeSamples(x) + DecodeSamples(y)
    decreases |x|
  {
    if x == [] {
      assert x + y == y;
    } else {
      assert (x + y)[2..] == x[2..] + y;
      DecodeConcat(x[2..], y);
    }
  }

  /** Encoding distributes over concatenation. */
  lemma {:induction false} EncodeConcat(s: seq<int16>, t: seq<int16>)
    ensures EncodeSamples(s + t) == EncodeSamples(s) + EncodeSamples(t)
    decreases |s|
  {
    if s == [] {
      assert s + t == t;
    } else {
      assert (s + t)[1..] == s[1..] + t;
      EncodeConcat(s[1..], t);
    }
  }

  /** The samples at even positions: channel 0 of an interleaved stereo stream. */
  function Evens<T>(s: seq<T>): (r: seq<T>)
    ensures 2 * |r| - 1 <= |s| <= 2 * |r|
    decreases |s|
  {
    if |s| <= 1 then s else [s[0]] + Evens(s[2..])
  }

  /** The samples at odd positions: channel 1 of an interleaved stereo stream. */
  function Odds<T>(s: seq<T>): (r: seq<T>)
    ensures 2 * |r| <= |s| <= 2 * |r| + 1
    decreases |s|
  {
    if |s| <= 1 then [] else [s[1]] + Odds(s[2..])
  }

  /** Element i of Evens is element 2i, element i of Odds element 2i+1. */
  lemma {:induction false} EvensOddsAt<T>(s: seq<T>, i: nat)
    ensures i < |Evens(s)| ==> Evens(s)[i] == s[2 * i]
    ensures i < |Odds(s)| ==> Odds(s)[i] == s[2 * i + 1]
    decreases i
  {
    if i > 0 && |s| > 1 {
      EvensOddsAt(s[2..], i - 1);
    }
  }

  /**
   * Sample-interleaving two mono channels, cut to the shorter one:
   * left, right, left, right, ...
   */
  function Interleave<T>(left: seq<T>, right: seq<T>): (r: seq<T>)
    ensures |r| == 2 * Min(|left|, |right|)
    decreases |left|
  {
    if left == [] || right == [] then [] else [left[0], right[0]] + Interleave(left[1..], right[1..])
  }

  function Min(a: int, b: int): int { if a <= b then a else b }

  /** Element 2i of an interleaving is left[i], element 2i+1 is right[i]. */
  lemma {:induction false} InterleaveAt<T>(left: seq<T>, right: seq<T>, i: nat)
    requires i < |left| && i < |right|
    ensures Interleave(left, right)[2 * i] == left[i]
    ensures Interleave(left, right)[2 * i + 1] == right[i]
    decreases i
  {
    if i > 0 {
      InterleaveAt(left[1..], right[1..], i - 1);
    }
  }

  /** De-interleaving an interleaved stream gives back both channels. */
  lemma {:induction false} DeinterleaveInterleave<T>(left: seq<T>, right: seq<T>)
    requires |left| == |right|
    ensures Evens(Interleave(left, right)) == left
    ensures Odds(Interleave(left, right)) == right
    decreases |left|
  {
    if left != [] {
      var r := Interleave(left, right);
      assert r[2..] == Interleave(left[1..], right[1..]);
      DeinterleaveInterleave(left[1..], right[1..]);
      assert left == [left[0]] + left[1..];
      assert right == [right[0]] + right[1..];
    }
  }

  /** Interleaving the two channels of an even-length stream gives back the stream. */
  lemma {:induction false} InterleaveDeinterleave<T>(s: seq<T>)
    requires |s| % 2 == 0
    ensures Interleave(Evens(s), Odds(s)) == s
    decreases |s|
  {
    if s != [] {
      assert Evens(s)[1..] == Evens(s[2..]);
      assert Odds(s)[1..] == Odds(s[2..]);
      InterleaveDeinterleave(s[2..]);
      assert s == [s[0], s[1]] + s[2..];
    }
  }

  /** Splitting into channels distributes over concatenation at an even position. */
  lemma {:induction false} EvensConcat<T>(x: seq<T>, y: seq<T>)
    requires |x| % 2 == 0
    ensures Evens(x + y) == Evens(x) + Evens(y)
    decreases |x|
  {
    if x == [] {
      assert x + y == y;
    } else {
      var rest := x[2..];
      assert (x + y)[0] == x[0] && (x + y)[2..] == rest + y;
      EvensConcat(rest, y);
    }
  }

  /** The same for the odd positions. */
  lemma {:induction false} OddsConcat<T>(x: seq<T>, y: seq<T>)
    requires |x| % 2 == 0
    ensures Odds(x + y) == Odds(x) + Odds(y)
    decreases |x|
  {
    if x == [] {
      assert x + y == y;
    } else {
      var rest := x[2..];
      assert (x + y)[1] == x[1] && (x + y)[2..] == rest + y;
      OddsConcat(rest, y);
    }
  }
}

/** The voice message's duration estimate: little-endian fields read back out of a WAV header. */
module VoiceLink {
  import opened Bytes
  import Int32
  import opened VoiceRecorder

  /** `readIntLittleEndian(data, offset)`: four bytes, least significant first, as a signed
      `int`. The four shifted bytes occupy disjoint bits, so their `|` is their sum; the top byte's
      shift by 24 lands in the sign bit, which is the wrap-around into the `int` range. */
  function ReadIntLittleEndian(data: seq<byte>, offset: nat): (v: int)
    requires offset + 4 <= |data|
    ensures Int32.InRange(v)
  {
    Int32.Wrap(data[offset] as int + 0x100 * data[offset + 1] as int
      + 0x1_0000 * data[offset + 2] as int + 0x100_0000 * data[offset + 3] as int)
  }

  /** `readShortLittleEndian(data, offset)`: two bytes, least significant first, unsigned. */
  function ReadShortLittleEndian(data: seq<byte>, offset: nat): (v: int)
    requires offset + 2 <= |data|
    ensures 0 <= v < 0x1_0000
  {
    data[offset] as int + 0x100 * data[offset + 1] as int
  }

  /** The position of the audio samples: everything after the 44-byte header. */
  const HeaderSize: nat := 44

  /** `estimateDuration(wavData)`, in seconds: 0 for a file shorter than a header; otherwise the
      bytes after the header divided by the byte rate the header's sample rate, channel count and
      sample size give, in Java `int` arithmetic, and 0 when that rate is 0 (the caught
      ArithmeticException). */
  function EstimateDuration(wav: seq<byte>): (seconds: int)
    requires |wav| <= Int32.Max
    ensures |wav| < HeaderSize ==> seconds == 0
    ensures Int32.InRange(seconds)
  {
    if |wav| < HeaderSize then 0
    else
      var sampleRate := ReadIntLittleEndian(wav, 24);
      var channels := ReadShortLittleEndian(wav, 22);
      var bitsPerSample := ReadShortLittleEndian(wav, 34);
      var bytesPerSecond := ByteRate(sampleRate, channels, bitsPerSample);
      var audioDataSize := |wav| - HeaderSize;
      if bytesPerSecond == 0 then 0
      else
        QuotRange(audioDataSize, bytesPerSecond);
        Int32.Quot(audioDataSize, bytesPerSecond)
  }

  /** Dividing a non-negative `int` by a non-zero `int` stays in range. */
  lemma QuotRange(a: int, b: int)
    requires 0 <= a <= Int32.Max && b != 0 && Int32.InRange(b)
    ensures Int32.InRange(Int32.Quot(a, b))
  {
    DivAtMost(Int32.Abs(a), Int32.Abs(b));
  }

  lemma DivAtMost(x: nat, y: nat)
    requires y >= 1
    ensures x / y <= x
  {
    var q := x / y;
    assert x == y * q + x % y;
    assert y * q == q + (y - 1) * q;
  }

  /** A header whose rate fields give a zero byte rate estimates 0 seconds. */
  lemma ZeroRateEstimatesZero(wav: seq<byte>)
    requires HeaderSize <= |wav| <= Int32.Max
    requires ByteRate(ReadIntLittleEndian(wav, 24), ReadShortLittleEndian(wav, 22), ReadShortLittleEndian(wav, 34)) == 0
    ensures EstimateDuration(wav) == 0
  {
  }

  /** Reading the int field back at the position it was written gives the value written. */
  lemma ReadWrittenInt(prefix: seq<byte>, value: int, suffix: seq<byte>)
    requires Int32.InRange(value)
    ensures ReadIntLittleEndian(prefix + IntBytes(value) + suffix, |prefix|) == value
  {
    var data := prefix + IntBytes(value) + suffix;
    var k := |prefix|;
    assert data[k..k + 4] == IntBytes(value);
    IntBytesValue(value);
    var sum := data[k] as int + 0x100 * data[k + 1] as int + 0x1_0000 * data[k + 2] as int + 0x100_0000 * data[k + 3] as int;
    assert sum == value % Int32.Modulus;
    WrapResidue(value);
  }

  /** A value's residue modulo 2^32 wraps back to the value. */
  lemma WrapResidue(value: int)
    requires Int32.InRange(value)
    ensures Int32.Wrap(value % Int32.Modulus) == value
  {
    var m := value % Int32.Modulus;
    assert m == value || m == value + Int32.Modulus;
  }

  /** Reading the short field back at the position it was written gives the value written. */
  lemma ReadWrittenShort(prefix: seq<byte>, value: int, suffix: seq<byte>)
    requires 0 <= value < 0x1_0000
    ensures ReadShortLittleEndian(prefix + ShortBytes(value) + suffix, |prefix|) == value
  {
    var data := prefix + ShortBytes(value) + suffix;
    var k := |prefix|;
    assert data[k..k + 2] == ShortBytes(value);
    ShortBytesValue(value);
  }

  /** The header `convertToWAV` writes reads back field by field as the WAV layout places them. */
  lemma WavHeaderFields(raw: seq<byte>)
    requires |raw| <= Int32.Max
    ensures var wav := WavFile(raw);
      && wav[..4] == RiffTag && wav[8..12] == WaveTag && wav[12..16] == FmtTag && wav[36..40] == DataTag
      && ReadIntLittleEndian(wav, 4) == Int32.Wrap(36 + |raw|)
      && ReadIntLittleEndian(wav, 16) == 16
      && ReadShortLittleEndian(wav, 20) == 1
      && ReadShortLittleEndian(wav, 22) == Channels
      && ReadIntLittleEndian(wav, 24) == SampleRate
      && ReadIntLittleEndian(wav, 28) == 32000
      && ReadShortLittleEndian(wav, 32) == 2
      && ReadShortLittleEndian(wav, 34) == BitsPerSample
      && ReadIntLittleEndian(wav, 40) == |raw|
  {
    var wav := WavFile(raw);
    var h := WavHeader(|raw|);
    HeaderLayout(|raw|);
    assert wav[..44] == h;
    FormatRates();
    IntAt(wav, 4, Int32.Wrap(36 + |raw|));
    IntAt(wav, 16, 16);
    ShortAt(wav, 20, 1);
    ShortAt(wav, 22, Channels);
    IntAt(wav, 24, SampleRate);
    IntAt(wav, 28, 32000);
    ShortAt(wav, 32, 2);
    ShortAt(wav, 34, BitsPerSample);
    IntAt(wav, 40, |raw|);
  }

  /** Where each field of the header sits. */
  lemma HeaderLayout(dataSize: int)
    ensures var h := WavHeader(dataSize);
      && h[..4] == RiffTag && h[4..8] == IntBytes(Int32.Wrap(36 + dataSize)) && h[8..12] == WaveTag
      && h[12..16] == FmtTag && h[16..20] == IntBytes(16) && h[20..22] == ShortBytes(1)
      && h[22..24] == ShortBytes(Channels) && h[24..28] == IntBytes(SampleRate)
      && h[28..32] == IntBytes(ByteRate(SampleRate, Channels, BitsPerSample))
      && h[32..34] == ShortBytes(BlockAlign(Channels, BitsPerSample)) && h[34..36] == ShortBytes(BitsPerSample)
      && h[36..40] == DataTag && h[40..44] == IntBytes(dataSize)
  {
    var h := WavHeader(dataSize);
    var riff, head, fields, data := RiffPreamble(Int32.Wrap(36 + dataSize)), FormatHead(), FormatFields(), DataHead(dataSize);
    assert h[..12] == riff && h[12..24] == head && h[24..36] == fields && h[36..] == data;
    PreambleLayout(Int32.Wrap(36 + dataSize));
    FormatHeadLayout();
    FormatFieldsLayout();
    assert h[..4] == riff[..4] && h[4..8] == riff[4..8] && h[8..12] == riff[8..];
    assert h[12..16] == head[..4] && h[16..20] == head[4..8] && h[20..22] == head[8..10] && h[22..24] == head[10..];
    assert h[24..28] == fields[..4] && h[28..32] == fields[4..8] && h[32..34] == fields[8..10] && h[34..36] == fields[10..];
    assert h[36..40] == data[..4] && h[40..44] == data[4..];
  }

  lemma PreambleLayout(fileSize: int)
    ensures var p := RiffPreamble(fileSize);
      p[..4] == RiffTag && p[4..8] == IntBytes(fileSize) && p[8..] == WaveTag
  {
  }

  lemma FormatHeadLayout()
    ensures var p := FormatHead();
      p[..4] == FmtTag && p[4..8] == IntBytes(16) && p[8..10] == ShortBytes(1) && p[10..] == ShortBytes(Channels)
  {
  }

  lemma FormatFieldsLayout()
    ensures var p := FormatFields();
      && p[..4] == IntBytes(SampleRate) && p[4..8] == IntBytes(ByteRate(SampleRate, Channels, BitsPerSample))
      && p[8..10] == ShortBytes(BlockAlign(Channels, BitsPerSample)) && p[10..] == ShortBytes(BitsPerSample)
  {
  }

  lemma IntAt(wav: seq<byte>, k: nat, value: int)
    requires k + 4 <= |wav| && Int32.InRange(value) && wav[k..k + 4] == IntBytes(value)
    ensures ReadIntLittleEndian(wav, k) == value
  {
    assert wav == wav[..k] + IntBytes(value) + wav[k + 4..];
    ReadWrittenInt(wav[..k], value, wav[k + 4..]);
  }

  lemma ShortAt(wav: seq<byte>, k: nat, value: int)
    requires k + 2 <= |wav| && 0 <= value < 0x1_0000 && wav[k..k + 2] == ShortBytes(value)
    ensures ReadShortLittleEndian(wav, k) == value
  {
    assert wav == wav[..k] + ShortBytes(value) + wav[k + 2..];
    ReadWrittenShort(wav[..k], value, wav[k + 2..]);
  }

  /** The estimate for anything `convertToWAV` produced is the recording's length over 32000
      bytes per second, rounded down. */
  lemma EstimateOfRecording(raw: seq<byte>)
    requires |raw| <= Int32.Max - HeaderSize
    ensures EstimateDuration(WavFile(raw)) == |raw| / 32000
  {
    WavHeaderFields(raw);
    FormatRates();
  }
}

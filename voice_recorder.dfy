/** The voice recorder: the WAV container it wraps recorded PCM bytes in, written byte by byte
    into an in-memory stream, and the recording flag that guards start and stop. */
module VoiceRecorder {
  import opened Wrappers
  import opened Bytes
  import Int32

  // ---------------------------------------------------------------------------------------------
  // The audio format

  /** The capture format: 16 kHz, mono, 16-bit signed little-endian PCM. */
  const SampleRate: int := 16000
  const Channels: int := 1
  const BitsPerSample: int := 16

  /** `sampleRate * numChannels * bitsPerSample / 8` in Java `int` arithmetic. */
  function ByteRate(sampleRate: int, channels: int, bits: int): int {
    Int32.Quot(Int32.Wrap(Int32.Wrap(sampleRate * channels) * bits), 8)
  }

  /** `numChannels * bitsPerSample / 8` in Java `int` arithmetic. */
  function BlockAlign(channels: int, bits: int): int {
    Int32.Quot(Int32.Wrap(channels * bits), 8)
  }

  /** The fixed format carries 32000 bytes per second in 2-byte frames. */
  lemma FormatRates()
    ensures ByteRate(SampleRate, Channels, BitsPerSample) == 32000
    ensures BlockAlign(Channels, BitsPerSample) == 2
  {
  }

  // ---------------------------------------------------------------------------------------------
  // Little-endian byte fields

  /** `(value >> shift) & 0xFF`: Java's `>>` on `int` is an arithmetic shift, which is floor
      division by a power of two, and Dafny's `/` by a positive number floors. */
  function ByteAt(value: int, shift: nat): (b: byte)
    requires shift in {0, 8, 16, 24}
  {
    var p := if shift == 0 then 1 else if shift == 8 then 0x100 else if shift == 16 then 0x1_0000 else 0x100_0000;
    ((value / p) % 0x100) as byte
  }

  /** The four bytes `writeIntLittleEndian(out, value)` appends, least significant first. */
  function IntBytes(value: int): (bs: seq<byte>)
    ensures |bs| == 4
  {
    [ByteAt(value, 0), ByteAt(value, 8), ByteAt(value, 16), ByteAt(value, 24)]
  }

  /** The two bytes `writeShortLittleEndian(out, value)` appends, least significant first. */
  function ShortBytes(value: int): (bs: seq<byte>)
    ensures |bs| == 2
  {
    [ByteAt(value, 0), ByteAt(value, 8)]
  }

  /** The four bytes are the value's residue modulo 2^32, written in base 256. */
  lemma IntBytesValue(value: int)
    ensures var bs := IntBytes(value);
      bs[0] as int + 0x100 * bs[1] as int + 0x1_0000 * bs[2] as int + 0x100_0000 * bs[3] as int
        == value % Int32.Modulus
  {
    var q1 := value / 0x100;
    var q2 := q1 / 0x100;
    var q3 := q2 / 0x100;
    assert value / 0x1_0000 == q2;
    assert value / 0x100_0000 == q3;
    assert value == value % 0x100 + 0x100 * q1;
    assert q1 == q1 % 0x100 + 0x100 * q2;
    assert q2 == q2 % 0x100 + 0x100 * q3;
    assert q3 == q3 % 0x100 + 0x100 * (q3 / 0x100);
    var low := value % 0x100 + 0x100 * (q1 % 0x100) + 0x1_0000 * (q2 % 0x100) + 0x100_0000 * (q3 % 0x100);
    assert value == low + Int32.Modulus * (q3 / 0x100);
    assert 0 <= low < Int32.Modulus;
  }

  /** The two bytes are the value's residue modulo 2^16, written in base 256. */
  lemma ShortBytesValue(value: int)
    ensures var bs := ShortBytes(value);
      bs[0] as int + 0x100 * bs[1] as int == value % 0x1_0000
  {
    var q1 := value / 0x100;
    assert value == value % 0x100 + 0x100 * q1;
    assert q1 == q1 % 0x100 + 0x100 * (q1 / 0x100);
    assert value / 0x1_0000 == q1 / 0x100;
  }

  // ---------------------------------------------------------------------------------------------
  // The stream

  /** A `ByteArrayOutputStream`: the bytes written to it so far. */
  class ByteSink {
    var bytes: seq<byte>

    constructor()
      ensures bytes == []
    {
      bytes := [];
    }

    /** `write(int b)`: the low eight bits of `b`. */
    method Write(b: int)
      modifies this
      ensures bytes == old(bytes) + [(b % 0x100) as byte]
    {
      bytes := bytes + [(b % 0x100) as byte];
    }

    /** `write(byte[] b)` */
    method WriteAll(bs: seq<byte>)
      modifies this
      ensures bytes == old(bytes) + bs
    {
      bytes := bytes + bs;
    }
  }

  /** `writeIntLittleEndian(out, value)` */
  method WriteIntLittleEndian(out: ByteSink, value: int)
    modifies out
    ensures out.bytes == old(out.bytes) + IntBytes(value)
  {
    ghost var start := out.bytes;
    out.Write(value % 0x100);
    LowByte(value, 1);
    out.Write((value / 0x100) % 0x100);
    LowByte(value, 0x100);
    assert out.bytes == start + [ByteAt(value, 0), ByteAt(value, 8)];
    out.Write((value / 0x1_0000) % 0x100);
    LowByte(value, 0x1_0000);
    out.Write((value / 0x100_0000) % 0x100);
    LowByte(value, 0x100_0000);
    assert out.bytes == start + [ByteAt(value, 0), ByteAt(value, 8)] + [ByteAt(value, 16), ByteAt(value, 24)];
  }

  /** `writeShortLittleEndian(out, value)` */
  method WriteShortLittleEndian(out: ByteSink, value: int)
    modifies out
    ensures out.bytes == old(out.bytes) + ShortBytes(value)
  {
    out.Write(value % 0x100);
    LowByte(value, 1);
    out.Write((value / 0x100) % 0x100);
    LowByte(value, 0x100);
  }

  /** Masking a byte that is already masked changes nothing. */
  lemma LowByte(value: int, p: int)
    requires p > 0
    ensures ((value / p) % 0x100) % 0x100 == (value / p) % 0x100
  {
  }

  // ---------------------------------------------------------------------------------------------
  // The WAV container

  /** The four-character chunk tags, as `getBytes()` encodes them. */
  const RiffTag: seq<byte> := Ascii("RIFF")
  const WaveTag: seq<byte> := Ascii("WAVE")
  const FmtTag: seq<byte> := Ascii("fmt ")
  const DataTag: seq<byte> := Ascii("data")

  /** "RIFF", the file size less eight, "WAVE". */
  function RiffPreamble(fileSize: int): (p: seq<byte>)
    ensures |p| == 12
  {
    RiffTag + IntBytes(fileSize) + WaveTag
  }

  /** "fmt ", the chunk size 16, the PCM format code 1 and the channel count. */
  function FormatHead(): (p: seq<byte>)
    ensures |p| == 12
  {
    FmtTag + IntBytes(16) + ShortBytes(1) + ShortBytes(Channels)
  }

  /** The sample rate, byte rate, block alignment and sample size. */
  function FormatFields(): (p: seq<byte>)
    ensures |p| == 12
  {
    IntBytes(SampleRate) + IntBytes(ByteRate(SampleRate, Channels, BitsPerSample))
      + ShortBytes(BlockAlign(Channels, BitsPerSample)) + ShortBytes(BitsPerSample)
  }

  /** "data" and the size of the samples that follow. */
  function DataHead(dataSize: int): (p: seq<byte>)
    ensures |p| == 8
  {
    DataTag + IntBytes(dataSize)
  }

  /** The 44-byte header `convertToWAV` writes before `dataSize` bytes of the fixed format. */
  function WavHeader(dataSize: int): (h: seq<byte>)
    ensures |h| == 44
  {
    RiffPreamble(Int32.Wrap(36 + dataSize)) + FormatHead() + FormatFields() + DataHead(dataSize)
  }

  /** The bytes `convertToWAV(raw)` returns: the header, then the recording unchanged. */
  function WavFile(raw: seq<byte>): (wav: seq<byte>)
    ensures |wav| == 44 + |raw|
    ensures wav[44..] == raw
  {
    WavHeader(|raw|) + raw
  }

  /** "RIFF", the file size and "WAVE". */
  method WriteRiffPreamble(out: ByteSink, fileSize: int)
    modifies out
    ensures out.bytes == old(out.bytes) + RiffPreamble(fileSize)
  {
    ghost var start := out.bytes;
    out.WriteAll(RiffTag);
    WriteIntLittleEndian(out, fileSize);
    out.WriteAll(WaveTag);
    assert out.bytes == start + (RiffTag + IntBytes(fileSize) + WaveTag);
  }

  /** "fmt ", the chunk size, the format code and the channel count. */
  method WriteFormatHead(out: ByteSink, numChannels: int)
    requires numChannels == Channels
    modifies out
    ensures out.bytes == old(out.bytes) + FormatHead()
  {
    ghost var start := out.bytes;
    out.WriteAll(FmtTag);
    WriteIntLittleEndian(out, 16);
    WriteShortLittleEndian(out, 1);
    WriteShortLittleEndian(out, numChannels);
    Regroup(start, FmtTag, IntBytes(16), ShortBytes(1), ShortBytes(Channels));
  }

  /** The sample rate, byte rate, block alignment and sample size. */
  method WriteFormatFields(out: ByteSink, sampleRate: int, byteRate: int, blockAlign: int, bitsPerSample: int)
    requires sampleRate == SampleRate && bitsPerSample == BitsPerSample
    requires byteRate == ByteRate(SampleRate, Channels, BitsPerSample)
    requires blockAlign == BlockAlign(Channels, BitsPerSample)
    modifies out
    ensures out.bytes == old(out.bytes) + FormatFields()
  {
    ghost var start := out.bytes;
    WriteIntLittleEndian(out, sampleRate);
    WriteIntLittleEndian(out, byteRate);
    WriteShortLittleEndian(out, blockAlign);
    WriteShortLittleEndian(out, bitsPerSample);
    Regroup(start, IntBytes(sampleRate), IntBytes(byteRate), ShortBytes(blockAlign), ShortBytes(bitsPerSample));
  }

  /** `convertToWAV`, field by field into a fresh stream. The IOException branch, which returns
      the raw bytes, cannot be taken: an in-memory stream never throws. */
  method ConvertToWav(raw: seq<byte>) returns (wav: seq<byte>)
    requires |raw| <= Int32.Max
    ensures wav == WavFile(raw)
  {
    var out := new ByteSink();
    var sampleRate, numChannels, bitsPerSample := SampleRate, Channels, BitsPerSample;
    var byteRate := ByteRate(sampleRate, numChannels, bitsPerSample);
    var blockAlign := BlockAlign(numChannels, bitsPerSample);
    var dataSize := |raw|;
    var fileSize := Int32.Wrap(36 + dataSize);
    WriteRiffPreamble(out, fileSize);
    WriteFormatHead(out, numChannels);
    WriteFormatFields(out, sampleRate, byteRate, blockAlign, bitsPerSample);
    ghost var header := out.bytes;
    out.WriteAll(DataTag);
    WriteIntLittleEndian(out, dataSize);
    assert out.bytes == header + (DataTag + IntBytes(dataSize));
    assert out.bytes == WavHeader(dataSize);
    out.WriteAll(raw);
    wav := out.bytes;
  }

  /** Appending four pieces one by one appends their concatenation. */
  lemma Regroup<T>(done: seq<T>, a: seq<T>, b: seq<T>, c: seq<T>, d: seq<T>)
    ensures done + a + b + c + d == done + (a + b + c + d)
  {
  }

  // ---------------------------------------------------------------------------------------------
  // The recorder

  /** The recorder's state: whether it is recording, and the bytes the capture thread has written
      to `recordedAudio` since the last start. The microphone line is I/O and is left out. */
  class Recorder {
    var isRecording: bool
    var recorded: seq<byte>

    /** A Java byte array, and hence the capture buffer, holds at most `Int32.Max` bytes. */
    ghost predicate Valid()
      reads this
    {
      |recorded| <= Int32.Max
    }

    constructor()
      ensures Valid() && !isRecording && recorded == []
    {
      isRecording := false;
      recorded := [];
    }

    /** `startRecording()`: a no-op while recording; otherwise the buffer is reset and, when the
        microphone line can be opened (`lineAvailable`), recording starts. A line that cannot be
        opened throws LineUnavailableException with recording still off. */
    method StartRecording(lineAvailable: bool) returns (r: Outcome<string>)
      requires Valid()
      modifies this
      ensures Valid()
      ensures old(isRecording) ==> r == Pass && isRecording && recorded == old(recorded)
      ensures !old(isRecording) ==> recorded == [] && (isRecording <==> lineAvailable)
      ensures !old(isRecording) ==> (r.Pass? <==> lineAvailable)
    {
      if isRecording {
        return Pass;
      }
      recorded := [];
      if !lineAvailable {
        return Fail("Audio line is not supported");
      }
      isRecording := true;
      r := Pass;
    }

    /** One pass of the capture thread's loop: while recording, the bytes read from the line are
        appended to the buffer; an empty read appends nothing. */
    method Capture(chunk: seq<byte>)
      requires Valid() && |recorded| + |chunk| <= Int32.Max
      modifies this
      ensures Valid() && isRecording == old(isRecording)
      ensures recorded == if old(isRecording) then old(recorded) + chunk else old(recorded)
    {
      if isRecording && |chunk| > 0 {
        recorded := recorded + chunk;
      }
    }

    /** `stopRecording()`: an empty array when not recording; otherwise recording stops and the
        captured bytes come back wrapped in a WAV header. */
    method StopRecording() returns (wav: seq<byte>)
      requires Valid()
      modifies this
      ensures Valid() && !isRecording && recorded == old(recorded)
      ensures !old(isRecording) ==> wav == []
      ensures old(isRecording) ==> wav == WavFile(recorded)
    {
      if !isRecording {
        return [];
      }
      isRecording := false;
      wav := ConvertToWav(recorded);
    }

    /** `isRecording()` */
    method IsRecording() returns (b: bool)
      ensures b == isRecording
    {
      b := isRecording;
    }
  }
}

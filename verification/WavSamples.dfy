/**
 What read_wav of tools/compare_wavs.py and wav_duration of tools/audit_speech_rates.py make of a format and a
 data chunk, and the bytes that writeWAV of tools/tts_reference.swift writes.
 */
module WavSamples {
  import opened Binary
  import opened Sequences
  import opened Wav
  import opened WavRoundTrip
  import opened Wrappers

  // ---------------------------------------------------------------- samples

  lemma {:induction false} FloatsByFours(raw: Bytes)
    requires |raw| % 4 == 0
    ensures |Floats(raw)| == |raw| / 4
    ensures forall k :: 0 <= k < |raw| / 4 ==> Floats(raw)[k] == FloatSample(LittleEndian(raw[4 * k..4 * k + 4]))
    decreases |raw|
  {
    hide LittleEndian;
    if raw != [] {
      FloatsByFours(raw[4..]);
      forall k | 0 < k < |raw| / 4
        ensures Floats(raw)[k] == FloatSample(LittleEndian(raw[4 * k..4 * k + 4]))
      {
        assert raw[4..][4 * (k - 1)..4 * (k - 1) + 4] == raw[4 * k..4 * k + 4];
      }
    }
  }

  lemma {:induction false} ShortsByTwos(raw: Bytes)
    requires |raw| % 2 == 0
    ensures |Shorts(raw)| == |raw| / 2
    ensures forall k :: 0 <= k < |raw| / 2 ==>
              var word := LittleEndian(raw[2 * k..2 * k + 2]);
              Shorts(raw)[k] == PcmSample(if word < 0x8000 then word else word - 0x1_0000)
    decreases |raw|
  {
    hide LittleEndian;
    if raw != [] {
      ShortsByTwos(raw[2..]);
      forall k | 0 < k < |raw| / 2
        ensures Shorts(raw)[k] == PcmSample(Signed(LittleEndian(raw[2 * k..2 * k + 2])))
      {
        assert raw[2..][2 * (k - 1)..2 * (k - 1) + 2] == raw[2 * k..2 * k + 2];
      }
    }
  }

  // ---------------------------------------------------------------- files of two chunks

  /** A file of a format and a data chunk, without pad bytes. */
  function TwoChunkBytes(size: nat, format: Bytes, data: Bytes): Bytes {
    File(size, FlatMap(Unpadded, [Chunk(FMT, format), Chunk(DATA, data)]))
  }

  lemma TwoChunksRead(size: nat, format: Bytes, data: Bytes)
    requires 16 <= |format| < 0x1_0000_0000 && |data| < 0x1_0000_0000
    ensures Decoded(TwoChunkBytes(size, format, data))
         == WithSamples(WithFormat(NOTHING, format[..16]), data, |data|)
  {
    hide WithSamples, WithFormat, Decoded, File;
    var a, b := Chunk(FMT, format), Chunk(DATA, data);
    assert FlatMap(Unpadded, [a, b]) + [] == FlatMap(Unpadded, [a, b]);
    UnpaddedFile(size, [a, b], []);
    InterpretTwo(a, b, NOTHING);
  }

  /** 32-bit floats are read word by word. */
  lemma FloatsRead(size: nat, format: Bytes, data: Bytes)
    requires 16 <= |format| < 0x1_0000_0000 && |data| < 0x1_0000_0000
    requires LittleEndian(format[..2]) == 3 && LittleEndian(format[14..16]) == 32
    ensures Decoded(TwoChunkBytes(size, format, data)).Success? <==> |data| % 4 == 0
    ensures |data| % 4 == 0 ==>
              Decoded(TwoChunkBytes(size, format, data)).value
              == Reading(3, LittleEndian(format[2..4]), LittleEndian(format[4..8]), 32,
                         seq(|data| / 4, k requires 0 <= k < |data| / 4 =>
                           FloatSample(LittleEndian(data[4 * k..4 * k + 4]))))
  {
    TwoChunksRead(size, format, data);
    FrontOfFormat(format);
    hide LittleEndian, Decoded, TwoChunkBytes, Floats, Shorts;
    if |data| % 4 == 0 {
      FloatsByFours(data);
    }
  }

  /** 16-bit samples are read in two's complement. */
  lemma ShortsRead(size: nat, format: Bytes, data: Bytes)
    requires 16 <= |format| < 0x1_0000_0000 && |data| < 0x1_0000_0000
    requires LittleEndian(format[..2]) == 1 && LittleEndian(format[14..16]) == 16
    ensures Decoded(TwoChunkBytes(size, format, data)).Success? <==> |data| % 2 == 0
    ensures |data| % 2 == 0 ==>
              Decoded(TwoChunkBytes(size, format, data)).value
              == Reading(1, LittleEndian(format[2..4]), LittleEndian(format[4..8]), 16,
                         seq(|data| / 2, k requires 0 <= k < |data| / 2 =>
                           var word := LittleEndian(data[2 * k..2 * k + 2]);
                           PcmSample(if word < 0x8000 then word else word - 0x1_0000)))
  {
    TwoChunksRead(size, format, data);
    FrontOfFormat(format);
    hide LittleEndian, Decoded, TwoChunkBytes, Floats, Shorts;
    if |data| % 2 == 0 {
      ShortsByTwos(data);
    }
  }

  /** Data in any other format is passed over. */
  lemma OtherFormatsSkipped(size: nat, format: Bytes, data: Bytes)
    requires 16 <= |format| < 0x1_0000_0000 && |data| < 0x1_0000_0000
    requires !(LittleEndian(format[..2]) == 3 && LittleEndian(format[14..16]) == 32)
    requires !(LittleEndian(format[..2]) == 1 && LittleEndian(format[14..16]) == 16)
    ensures Decoded(TwoChunkBytes(size, format, data))
         == Success(Reading(LittleEndian(format[..2]), LittleEndian(format[2..4]), LittleEndian(format[4..8]),
                            LittleEndian(format[14..16]), []))
  {
    TwoChunksRead(size, format, data);
    FrontOfFormat(format);
    hide LittleEndian, Decoded, TwoChunkBytes;
  }

  lemma FrontOfFormat(format: Bytes)
    requires |format| >= 16
    ensures format[..16][..2] == format[..2] && format[..16][2..4] == format[2..4]
    ensures format[..16][4..8] == format[4..8] && format[..16][14..16] == format[14..16]
  {
  }

  // ---------------------------------------------------------------- 16-bit files

  type Short = s: int | -0x8000 <= s < 0x8000

  /** 16-bit numbers as words in two's complement. */
  function PcmBytes(samples: seq<Short>): Bytes {
    if samples == [] then []
    else
      var s: int := samples[0];
      Packed(if s < 0 then s + 0x1_0000 else s, 2) + PcmBytes(samples[1..])
  }

  lemma {:induction false} PcmWords(samples: seq<Short>)
    ensures Shorts(PcmBytes(samples)) == Map((s: Short) => PcmSample(s), samples)
    ensures |PcmBytes(samples)| == 2 * |samples|
  {
    if samples != [] {
      var s: int := samples[0];
      var word := if s < 0 then s + 0x1_0000 else s;
      var bytes, rest := PcmBytes(samples), PcmBytes(samples[1..]);
      PcmWords(samples[1..]);
      PackedHalf(word);
      assert bytes == Packed(word, 2) + rest && bytes[..2] == Packed(word, 2) && bytes[2..] == rest;
      hide Packed, LittleEndian, PcmBytes;
      assert Map((s: Short) => PcmSample(s), samples)
          == [PcmSample(samples[0])] + Map((s: Short) => PcmSample(s), samples[1..]);
    }
  }

  /** The fields of a written format chunk. */
  lemma FormatFields(audioFormat: nat, channels: nat, rate: nat, byteRate: nat, align: nat, bits: nat)
    requires audioFormat < 0x1_0000 && channels < 0x1_0000 && rate < 0x1_0000_0000 && byteRate < 0x1_0000_0000
    requires align < 0x1_0000 && bits < 0x1_0000
    ensures var format := Format(audioFormat, channels, rate, byteRate, align, bits);
            && LittleEndian(format[..2]) == audioFormat && LittleEndian(format[2..4]) == channels
            && LittleEndian(format[4..8]) == rate && LittleEndian(format[8..12]) == byteRate
            && LittleEndian(format[12..14]) == align && LittleEndian(format[14..16]) == bits
  {
    SixFields(Packed(audioFormat, 2), Packed(channels, 2), Packed(rate, 4), Packed(byteRate, 4), Packed(align, 2),
              Packed(bits, 2));
    PackedHalf(audioFormat);
    PackedHalf(channels);
    PackedWord(rate);
    PackedWord(byteRate);
    PackedHalf(align);
    PackedHalf(bits);
    assert Format(audioFormat, channels, rate, byteRate, align, bits)[12..14] == Packed(align, 2);
  }

  /** read_wav gives back the samples of a 16-bit file, negative ones too. */
  lemma PcmReadsBack(size: nat, samples: seq<Short>, channels: nat, rate: nat, byteRate: nat, align: nat)
    requires channels < 0x1_0000 && rate < 0x1_0000_0000 && byteRate < 0x1_0000_0000 && align < 0x1_0000
    requires 2 * |samples| < 0x1_0000_0000
    ensures Decoded(TwoChunkBytes(size, Format(1, channels, rate, byteRate, align, 16), PcmBytes(samples)))
         == Success(Reading(1, channels, rate, 16, Map((s: Short) => PcmSample(s), samples)))
  {
    hide LittleEndian, Decoded, TwoChunkBytes, Floats, Shorts, Format, PcmBytes, Packed;
    var format := Format(1, channels, rate, byteRate, align, 16);
    FormatFields(1, channels, rate, byteRate, align, 16);
    PcmWords(samples);
    TwoChunksRead(size, format, PcmBytes(samples));
    FrontOfFormat(format);
  }

  // ---------------------------------------------------------------- durations

  function Quotient(bytes: nat, byteRate: nat): real
    requires byteRate > 0
  {
    bytes as real / byteRate as real
  }

  lemma CountedTwo(format: Bytes, data: Bytes)
    ensures CountAll([Chunk(FMT, format), Chunk(DATA, data)], Counts(0, 0)) ==
            if |format| < 16 then Failure(ShortFormat)
            else if (LittleEndian(format[..2]) != 1 && LittleEndian(format[..2]) != 3)
                    || LittleEndian(format[2..4]) == 0 || LittleEndian(format[4..8]) == 0 then
              Failure(UnsupportedFormat)
            else Success(Counts(LittleEndian(format[8..12]), |data|))
  {
    hide LittleEndian, CountAll;
    CountTwo(Chunk(FMT, format), Chunk(DATA, data), Counts(0, 0));
  }

  /** The duration of a format and a data chunk, with every way to be refused. */
  lemma DurationOfTwo(size: nat, format: Bytes, data: Bytes)
    requires |format| < 0x1_0000_0000 && |data| < 0x1_0000_0000
    ensures var file := File(size, FlatMap(Padded, [Chunk(FMT, format), Chunk(DATA, data)]));
            Duration(file) ==
            if |file| > 0x1_0000_0000 then Failure(BadSize)
            else if |format| < 16 then Failure(ShortFormat)
            else if (LittleEndian(format[..2]) != 1 && LittleEndian(format[..2]) != 3)
                    || LittleEndian(format[2..4]) == 0 || LittleEndian(format[4..8]) == 0 then
              Failure(UnsupportedFormat)
            else if LittleEndian(format[8..12]) == 0 || data == [] then Failure(NoUsableChunks)
            else Success(Quotient(|data|, LittleEndian(format[8..12])))
  {
    hide LittleEndian, Scan, CountAll, FlatMap, File, Padded, Count;
    var two := [Chunk(FMT, format), Chunk(DATA, data)];
    var bytes := FlatMap(Padded, two);
    assert bytes + [] == bytes;
    PaddedFile(size, two, []);
    FileStarts(size, bytes, []);
    CountedTwo(format, data);
  }

  /** Without odd payloads the pad bytes make no difference. */
  lemma EvenTwo(size: nat, format: Bytes, data: Bytes)
    requires |format| == 16 && |data| < 0x1_0000_0000 && |data| % 2 == 0
    ensures TwoChunkBytes(size, format, data) == File(size, FlatMap(Padded, [Chunk(FMT, format), Chunk(DATA, data)]))
    ensures |TwoChunkBytes(size, format, data)| == 44 + |data|
  {
    hide File, FlatMap, Decoded, Scan, CountAll, InterpretAll, Unpadded, Padded;
    var two := [Chunk(FMT, format), Chunk(DATA, data)];
    EvenIsUnpadded(two);
    TwoChunkFile(size, two);
  }

  lemma PcmCounted(size: nat, samples: seq<Short>, channels: nat, rate: nat, byteRate: nat, align: nat)
    requires 0 < channels < 0x1_0000 && 0 < rate < 0x1_0000_0000 && 0 < byteRate < 0x1_0000_0000 && align < 0x1_0000
    requires samples != [] && 2 * |samples| + 44 <= 0x1_0000_0000
    ensures Duration(TwoChunkBytes(size, Format(1, channels, rate, byteRate, align, 16), PcmBytes(samples)))
         == Success(Quotient(2 * |samples|, byteRate))
  {
    hide *;
    FormatFields(1, channels, rate, byteRate, align, 16);
    PcmWords(samples);
    EvenTwo(size, Format(1, channels, rate, byteRate, align, 16), PcmBytes(samples));
    DurationOfTwo(size, Format(1, channels, rate, byteRate, align, 16), PcmBytes(samples));
  }

  /** So a 16-bit file lasts its frames over its rate. */
  lemma PcmDuration(size: nat, samples: seq<Short>, channels: nat, rate: nat)
    requires 0 < channels && 2 * channels < 0x1_0000 && 0 < rate < 0x1_0000_0000
    requires 0 < rate * channels && rate * channels * 2 < 0x1_0000_0000
    requires samples != [] && 2 * |samples| + 44 <= 0x1_0000_0000
    ensures var format := Format(1, channels, rate, rate * channels * 2, 2 * channels, 16);
            Duration(TwoChunkBytes(size, format, PcmBytes(samples)))
            == Success(|samples| as real / (rate * channels) as real)
  {
    PcmCounted(size, samples, channels, rate, rate * channels * 2, 2 * channels);
    Halved(|samples|, rate * channels);
  }

  lemma Halved(samples: nat, frameRate: nat)
    requires frameRate > 0
    ensures (2 * samples) as real / (frameRate * 2) as real == samples as real / frameRate as real
  {
  }

  // ---------------------------------------------------------------- the writer's bytes

  /** Every field of the header of 44 bytes, and every sample after it. */
  lemma WrittenBytes(samples: seq<Float>, rate: nat, channels: nat)
    requires FitsHeader(|samples|, rate, channels)
    ensures var file := Written(samples, rate, channels);
            && |file| == 44 + 4 * |samples|
            && file[..4] == [0x52, 0x49, 0x46, 0x46] && LittleEndian(file[4..8]) == |file| - 8
            && file[8..12] == [0x57, 0x41, 0x56, 0x45]
            && file[12..16] == [0x66, 0x6D, 0x74, 0x20] && LittleEndian(file[16..20]) == 16
            && LittleEndian(file[20..22]) == 3 && LittleEndian(file[22..24]) == channels
            && LittleEndian(file[24..28]) == rate && LittleEndian(file[28..32]) == rate * channels * 4
            && LittleEndian(file[32..34]) == channels * 4 && LittleEndian(file[34..36]) == 32
            && file[36..40] == [0x64, 0x61, 0x74, 0x61] && LittleEndian(file[40..44]) == 4 * |samples|
            && forall k :: 0 <= k < |samples| ==> LittleEndian(file[44 + 4 * k..48 + 4 * k]) == samples[k]
  {
    FormatFields(3, channels, rate, rate * channels * 4, channels * 4, 32);
    BytesWritten(FloatFormat(rate, channels, rate * channels * 4), samples);
    hide LittleEndian, Packed, SampleBytes, FileWith, FloatFormat;
  }

  lemma BytesWritten(format: Bytes, samples: seq<Float>)
    requires |format| == 16 && 36 + 4 * |samples| < 0x1_0000_0000
    ensures var file := FileWith(format, samples);
            && |file| == 44 + 4 * |samples|
            && file[..4] == RIFF && LittleEndian(file[4..8]) == |file| - 8 && file[8..12] == WAVE
            && file[12..16] == FMT && LittleEndian(file[16..20]) == 16
            && file[20..22] == format[..2] && file[22..24] == format[2..4] && file[24..28] == format[4..8]
            && file[28..32] == format[8..12] && file[32..34] == format[12..14] && file[34..36] == format[14..16]
            && file[36..40] == DATA && LittleEndian(file[40..44]) == 4 * |samples|
            && forall k :: 0 <= k < |samples| ==> LittleEndian(file[44 + 4 * k..48 + 4 * k]) == samples[k]
  {
    hide LittleEndian, Packed, SampleBytes, FlatMap, File, TwoChunks;
    var size, length, data := 36 + 4 * |samples|, 4 * |samples|, SampleBytes(samples);
    var file := FileWith(format, samples);
    FileOfChunks(size, format, samples);
    SampleBytesLength(samples);
    HeadFields(Packed(size, 4), Packed(16, 4), format, Packed(length, 4), data);
    PackedWord(size);
    PackedWord(16);
    PackedWord(length);
    SampleWords(samples);
    forall k | 0 <= k < |samples|
      ensures LittleEndian(file[44 + 4 * k..48 + 4 * k]) == samples[k]
    {
      assert file[44 + 4 * k..48 + 4 * k] == file[44..][4 * k..4 * k + 4];
    }
  }

  lemma HeadFields(size: Bytes, length: Bytes, format: Bytes, dataLength: Bytes, data: Bytes)
    requires |size| == 4 && |length| == 4 && |format| == 16 && |dataLength| == 4
    ensures var file := RIFF + size + WAVE + (FMT + length + format + (DATA + dataLength)) + data;
            && |file| == 44 + |data| && file[44..] == data
            && file[..4] == RIFF && file[4..8] == size && file[8..12] == WAVE && file[12..16] == FMT
            && file[16..20] == length && file[20..22] == format[..2] && file[22..24] == format[2..4]
            && file[24..28] == format[4..8] && file[28..32] == format[8..12] && file[32..34] == format[12..14]
            && file[34..36] == format[14..16] && file[36..40] == DATA && file[40..44] == dataLength
  {
  }

  lemma {:induction false} SampleWords(samples: seq<Float>)
    ensures |SampleBytes(samples)| == 4 * |samples|
    ensures forall k :: 0 <= k < |samples| ==> LittleEndian(SampleBytes(samples)[4 * k..4 * k + 4]) == samples[k]
  {
    SampleBytesLength(samples);
    if samples != [] {
      var bytes, rest := SampleBytes(samples), SampleBytes(samples[1..]);
      SampleWords(samples[1..]);
      PackedWord(samples[0]);
      assert bytes == Packed(samples[0], 4) + rest && bytes[..4] == Packed(samples[0], 4);
      hide LittleEndian, Packed, SampleBytes;
      forall k | 0 < k < |samples|
        ensures LittleEndian(bytes[4 * k..4 * k + 4]) == samples[k]
      {
        assert bytes[4 * k..4 * k + 4] == rest[4 * (k - 1)..4 * (k - 1) + 4];
      }
    }
  }
}

/**
 WAV files: writeWAV of tools/tts_reference.swift, and the two readers of its files, read_wav of
 tools/compare_wavs.py and wav_duration of tools/audit_speech_rates.py. Float samples are 32-bit words.
 */
module Wav {
  import opened Binary
  import opened Sequences
  import opened Wrappers

  type Float = w: int | 0 <= w < 0x1_0000_0000

  /** What read_wav returns for a sample: a float's word, or a 16-bit integer it divides by 32768. */
  datatype Sample = FloatSample(word: nat) | PcmSample(units: int)

  datatype Error =
    | NotRiff | NotWave | ShortRead | BadSize | TruncatedChunk | ShortFormat | UnsupportedFormat | NoUsableChunks
    | DoesNotFit

  const RIFF: Bytes := [0x52, 0x49, 0x46, 0x46]
  const WAVE: Bytes := [0x57, 0x41, 0x56, 0x45]
  const FMT: Bytes := [0x66, 0x6D, 0x74, 0x20]
  const DATA: Bytes := [0x64, 0x61, 0x74, 0x61]

  // ---------------------------------------------------------------- RIFF chunks

  datatype Chunk = Chunk(id: Bytes, payload: Bytes)

  ghost predicate ValidChunk(c: Chunk) {
    |c.id| == 4 && |c.payload| < 0x1_0000_0000
  }

  function Unpadded(c: Chunk): Bytes {
    c.id + Packed(|c.payload|, 4) + c.payload
  }

  /** An odd payload is followed by a pad byte. */
  function Padded(c: Chunk): Bytes {
    Unpadded(c) + if |c.payload| % 2 == 1 then [0] else []
  }

  /** The sixteen bytes that describe the samples. */
  function Format(audioFormat: nat, channels: nat, rate: nat, byteRate: nat, align: nat, bits: nat): (r: Bytes)
    ensures |r| == 16
  {
    Packed(audioFormat, 2) + Packed(channels, 2) + Packed(rate, 4) + Packed(byteRate, 4) + Packed(align, 2)
    + Packed(bits, 2)
  }

  function SampleBytes(samples: seq<Float>): Bytes {
    FlatMap((w: Float) => Packed(w, 4), samples)
  }

  /** A file with the given chunks. */
  function File(size: nat, chunks: Bytes): Bytes {
    RIFF + Packed(size, 4) + WAVE + chunks
  }

  // ---------------------------------------------------------------- the writer

  /** The widths of the header fields hold what they must hold. */
  predicate FitsHeader(count: nat, rate: int, channels: int) {
    && 36 + 4 * count < 0x1_0000_0000 && 0 <= channels && channels * 4 < 0x1_0000
    && 0 <= rate < 0x1_0000_0000 && rate * channels * 4 < 0x1_0000_0000
  }

  /** The format of the writer's files: IEEE floats of 32 bits. */
  function FloatFormat(rate: nat, channels: nat, byteRate: nat): (r: Bytes)
    ensures |r| == 16
  {
    Format(3, channels, rate, byteRate, channels * 4, 32)
  }

  /** A format and a data chunk. */
  function TwoChunks(format: Bytes, samples: seq<Float>): seq<Chunk> {
    [Chunk(FMT, format), Chunk(DATA, SampleBytes(samples))]
  }

  function FileWith(format: Bytes, samples: seq<Float>): Bytes {
    File(36 + 4 * |samples|, FlatMap(Unpadded, TwoChunks(format, samples)))
  }

  /** The file of a RIFF header of 44 bytes and the samples. */
  function Written(samples: seq<Float>, rate: nat, channels: nat): Bytes {
    FileWith(FloatFormat(rate, channels, rate * channels * 4), samples)
  }

  /** A conversion to a fixed width stops the program when the value does not fit. */
  method WriteWav(samples: seq<Float>, rate: int, channels: int) returns (file: Result<Bytes, Error>)
    ensures file.Success? <==>
              && 36 + 4 * |samples| < 0x1_0000_0000 && 0 <= channels && channels * 4 < 0x1_0000
              && 0 <= rate < 0x1_0000_0000 && rate * channels * 4 < 0x1_0000_0000
    ensures file.Success? <==> FitsHeader(|samples|, rate, channels)
    ensures file.Success? ==>
              channels >= 0 && rate >= 0 && file.value == Written(samples, rate, channels)
  {
    if !FitsHeader(|samples|, rate, channels) { return Failure(DoesNotFit); }
    var data := Assemble(samples, rate, channels, rate * channels * 4);
    return Success(data);
  }

  method Assemble(samples: seq<Float>, rate: nat, channels: nat, byteRate: nat) returns (data: Bytes)
    ensures data == FileWith(FloatFormat(rate, channels, byteRate), samples)
  {
    var dataSize := |samples| * 4;
    var format := FormatBytes(rate, channels, byteRate);
    data := RIFF + Packed(36 + dataSize, 4) + WAVE + (FMT + Packed(16, 4) + format + (DATA + Packed(dataSize, 4)));
    data := AppendSamples(data, samples);
    FileOfChunks(36 + dataSize, format, samples);
  }

  method FormatBytes(rate: nat, channels: nat, byteRate: nat) returns (format: Bytes)
    ensures format == FloatFormat(rate, channels, byteRate)
  {
    format := Packed(3, 2);
    format := format + Packed(channels, 2);
    format := format + Packed(rate, 4);
    format := format + Packed(byteRate, 4);
    format := format + Packed(channels * 4, 2);
    format := format + Packed(32, 2);
  }

  method AppendSamples(header: Bytes, samples: seq<Float>) returns (data: Bytes)
    ensures data == header + SampleBytes(samples)
  {
    data := header;
    for i := 0 to |samples|
      invariant data == header + SampleBytes(samples[..i])
    {
      SampleBytesStep(samples, i);
      data := data + Packed(samples[i], 4);
    }
    assert samples[..|samples|] == samples;
  }

  lemma SampleBytesStep(samples: seq<Float>, i: nat)
    requires i < |samples|
    ensures SampleBytes(samples[..i + 1]) == SampleBytes(samples[..i]) + Packed(samples[i], 4)
  {
    var f := (w: Float) => Packed(w, 4);
    assert samples[..i + 1] == samples[..i] + [samples[i]];
    FlatMapAppend(f, samples[..i], [samples[i]]);
    FlatMapOne(f, samples[i]);
  }

  lemma {:induction false} SampleBytesLength(samples: seq<Float>)
    ensures |SampleBytes(samples)| == 4 * |samples|
  {
    if samples != [] {
      SampleBytesLength(samples[1..]);
    }
  }

  lemma Joined(a: Chunk, b: Chunk)
    ensures FlatMap(Unpadded, [a, b]) == Unpadded(a) + Unpadded(b)
  {
    assert [a, b] == [a] + [b];
    FlatMapAppend(Unpadded, [a], [b]);
    FlatMapOne(Unpadded, a);
    FlatMapOne(Unpadded, b);
  }

  lemma FileOfChunks(size: nat, format: Bytes, samples: seq<Float>)
    requires |format| == 16
    ensures RIFF + Packed(size, 4) + WAVE + (FMT + Packed(16, 4) + format + (DATA + Packed(4 * |samples|, 4)))
            + SampleBytes(samples)
         == File(size, FlatMap(Unpadded, TwoChunks(format, samples)))
  {
    Joined(Chunk(FMT, format), Chunk(DATA, SampleBytes(samples)));
    SampleBytesLength(samples);
    Regroup(RIFF + Packed(size, 4) + WAVE, FMT + Packed(16, 4) + format, DATA + Packed(4 * |samples|, 4),
            SampleBytes(samples));
  }

  lemma Regroup(a: Bytes, b: Bytes, c: Bytes, d: Bytes)
    ensures a + (b + c) + d == a + (b + (c + d))
  {
  }

  // ---------------------------------------------------------------- read_wav

  /** read_wav's local variables. */
  datatype Reading = Reading(audioFormat: nat, channels: nat, rate: nat, bits: nat, samples: seq<Sample>)

  const NOTHING := Reading(0, 0, 0, 0, [])

  function Floats(raw: Bytes): seq<Sample> {
    if |raw| < 4 then [] else [FloatSample(LittleEndian(raw[..4]))] + Floats(raw[4..])
  }

  /** Sixteen bits, two's complement. */
  function Signed(value: nat): int {
    if value >= 0x8000 then value - 0x1_0000 else value
  }

  function Shorts(raw: Bytes): seq<Sample> {
    if |raw| < 2 then [] else [PcmSample(Signed(LittleEndian(raw[..2])))] + Shorts(raw[2..])
  }

  /** What a reader may read from an offset on: less at the end of the file. */
  function Upto(data: Bytes, at: nat, size: nat): (end: nat)
    requires at <= |data|
    ensures at <= end <= |data|
  {
    if at + size <= |data| then at + size else |data|
  }

  function WithFormat(r: Reading, format: Bytes): Reading
    requires |format| >= 16
  {
    r.(audioFormat := LittleEndian(format[..2]), channels := LittleEndian(format[2..4]),
       rate := LittleEndian(format[4..8]), bits := LittleEndian(format[14..16]))
  }

  /** The samples of `raw` bytes, read where the chunk announced `size`. */
  function WithSamples(r: Reading, raw: Bytes, size: nat): Result<Reading, Error> {
    if r.audioFormat == 3 && r.bits == 32 then
      if |raw| == size / 4 * 4 then Success(r.(samples := Floats(raw))) else Failure(ShortRead)
    else if r.audioFormat == 1 && r.bits == 16 then
      if |raw| == size / 2 * 2 then Success(r.(samples := Shorts(raw))) else Failure(ShortRead)
    else Success(r)
  }

  function FormatEnd(data: Bytes, at: nat, size: nat): (end: nat)
    requires at + 16 <= |data|
    ensures at + 16 <= end <= |data|
  {
    if size > 16 then Upto(data, at + 16, size - 16) else at + 16
  }

  /** One chunk: what is known after it, and where it ends. */
  function ReadChunk(data: Bytes, at: nat, id: Bytes, size: nat, r: Reading): (next: Result<(Reading, nat), Error>)
    requires at <= |data|
    ensures next.Success? ==> at <= next.value.1 <= |data|
  {
    if id == FMT then
      if at + 16 > |data| then Failure(ShortRead)
      else Success((WithFormat(r, data[at..at + 16]), FormatEnd(data, at, size)))
    else if id == DATA then
      match WithSamples(r, data[at..Upto(data, at, size)], size)
      case Success(read) => Success((read, Upto(data, at, size)))
      case Failure(e) => Failure(e)
    else Success((r, Upto(data, at, size)))
  }

  /** The rest of the file from a chunk on. */
  function Walk(data: Bytes, pos: nat, r: Reading): Result<Reading, Error>
    requires pos <= |data|
    decreases |data| - pos
  {
    if pos + 4 > |data| then Success(r)
    else if pos + 8 > |data| then Failure(ShortRead)
    else
      match ReadChunk(data, pos + 8, data[pos..pos + 4], LittleEndian(data[pos + 4..pos + 8]), r)
      case Success((next, end)) => Walk(data, end, next)
      case Failure(e) => Failure(e)
  }

  function Decoded(data: Bytes): Result<Reading, Error> {
    if !(RIFF <= data) then Failure(NotRiff)
    else if |data| < 12 || data[8..12] != WAVE then Failure(NotWave)
    else Walk(data, 12, NOTHING)
  }

  /** The branches of the loop: the reading after one chunk, and the position. */
  method TakeChunk(data: Bytes, start: nat, id: Bytes, size: nat, r: Reading)
    returns (next: Result<(Reading, nat), Error>)
    requires start <= |data|
    ensures next == ReadChunk(data, start, id, size, r)
  {
    var pos := start;
    if id == FMT {
      if pos + 16 > |data| { return Failure(ShortRead); }
      var format := data[pos..pos + 16];
      pos := pos + 16;
      if size > 16 { pos := Upto(data, pos, size - 16); }
      return Success((WithFormat(r, format), pos));
    } else if id == DATA {
      var raw := data[pos..Upto(data, pos, size)];
      var read := WithSamples(r, raw, size);
      if read.Failure? { return Failure(read.error); }
      return Success((read.value, pos + |raw|));
    }
    return Success((r, Upto(data, pos, size)));
  }

  method ReadWav(data: Bytes) returns (result: Result<Reading, Error>)
    ensures result == Decoded(data)
  {
    if |data| < 4 || data[..4] != RIFF { return Failure(NotRiff); }
    if |data| < 12 || data[8..12] != WAVE { return Failure(NotWave); }
    var pos, r := 12, NOTHING;
    ghost var expected := Walk(data, pos, r);
    while pos + 4 <= |data|
      invariant 12 <= pos <= |data|
      invariant Walk(data, pos, r) == expected
      decreases |data| - pos
    {
      var id := data[pos..pos + 4];
      if pos + 8 > |data| { return Failure(ShortRead); }
      var size := LittleEndian(data[pos + 4..pos + 8]);
      var next := TakeChunk(data, pos + 8, id, size, r);
      if next.Failure? { return Failure(next.error); }
      r, pos := next.value.0, next.value.1;
    }
    return Success(r);
  }

  // ---------------------------------------------------------------- wav_duration

  /** The byte rate of the last format chunk, zero before any, and the bytes of all data chunks. */
  datatype Counts = Counts(byteRate: nat, dataBytes: nat)

  /** The byte rate of a format chunk that passes the checks. */
  function ByteRate(payload: Bytes): Result<nat, Error> {
    if |payload| < 16 then Failure(ShortFormat)
    else
      var (format, channels, rate) :=
        (LittleEndian(payload[..2]), LittleEndian(payload[2..4]), LittleEndian(payload[4..8]));
      if (format != 1 && format != 3) || channels == 0 || rate == 0 then Failure(UnsupportedFormat)
      else Success(LittleEndian(payload[8..12]))
  }

  function Count(c: Chunk, n: Counts): Result<Counts, Error> {
    if c.id == FMT then
      match ByteRate(c.payload)
      case Success(byteRate) => Success(n.(byteRate := byteRate))
      case Failure(e) => Failure(e)
    else if c.id == DATA then Success(n.(dataBytes := n.dataBytes + |c.payload|))
    else Success(n)
  }

  /** A payload and its pad byte. */
  function WithPad(size: nat): (r: nat)
    ensures size <= r
  {
    if size % 2 == 1 then size + 1 else size
  }

  /** One chunk: the counts with it, and where the next one starts. */
  function CountAt(data: Bytes, pos: nat, n: Counts): (next: Result<(Counts, nat), Error>)
    requires pos + 8 <= |data|
    ensures next.Success? ==> pos + 8 <= next.value.1
  {
    var (size, at) := (LittleEndian(data[pos + 4..pos + 8]), pos + 8);
    if size > |data| - at then Failure(TruncatedChunk)
    else
      match Count(Chunk(data[pos..pos + 4], data[at..at + size]), n)
      case Success(counts) => Success((counts, at + WithPad(size)))
      case Failure(e) => Failure(e)
  }

  function Scan(data: Bytes, pos: nat, n: Counts): Result<Counts, Error>
    decreases |data| + 8 - pos
  {
    if pos + 8 > |data| then Success(n)
    else
      match CountAt(data, pos, n)
      case Success((counts, next)) => Scan(data, next, counts)
      case Failure(e) => Failure(e)
  }

  function Duration(data: Bytes): Result<real, Error> {
    if |data| < 12 || |data| > 0x1_0000_0000 then Failure(BadSize)
    else if data[..4] != RIFF then Failure(NotRiff)
    else if data[8..12] != WAVE then Failure(NotWave)
    else
      match Scan(data, 12, Counts(0, 0))
      case Failure(e) => Failure(e)
      case Success(n) =>
        if n.byteRate == 0 || n.dataBytes == 0 then Failure(NoUsableChunks)
        else Success(n.dataBytes as real / n.byteRate as real)
  }

  /** The read position only moves forward, so the loop ends on any bytes. */
  method WavDuration(data: Bytes) returns (seconds: Result<real, Error>)
    ensures seconds == Duration(data)
  {
    if |data| < 12 || |data| > 0x1_0000_0000 { return Failure(BadSize); }
    if data[..4] != RIFF { return Failure(NotRiff); }
    if data[8..12] != WAVE { return Failure(NotWave); }
    var counted := ScanChunks(data);
    if counted.Failure? { return Failure(counted.error); }
    var n := counted.value;
    if n.byteRate == 0 || n.dataBytes == 0 { return Failure(NoUsableChunks); }
    return Success(n.dataBytes as real / n.byteRate as real);
  }

  /** The branches of the loop, and the seeks after them. */
  method CountChunk(data: Bytes, start: nat, n: Counts) returns (next: Result<(Counts, nat), Error>)
    requires start + 8 <= |data|
    ensures next == CountAt(data, start, n)
  {
    var id := data[start..start + 4];
    var size := LittleEndian(data[start + 4..start + 8]);
    var pos, counts := start + 8, n;
    if size > |data| - pos { return Failure(TruncatedChunk); }
    var payload := data[pos..pos + size];
    if id == FMT {
      var byteRate := ByteRate(payload);
      if byteRate.Failure? { return Failure(byteRate.error); }
      counts := counts.(byteRate := byteRate.value);
    } else if id == DATA {
      counts := counts.(dataBytes := counts.dataBytes + size);
    }
    pos := pos + size;
    if size % 2 == 1 { pos := pos + 1; }
    return Success((counts, pos));
  }

  method ScanChunks(data: Bytes) returns (counted: Result<Counts, Error>)
    ensures counted == Scan(data, 12, Counts(0, 0))
  {
    var pos: nat, n := 12, Counts(0, 0);
    ghost var expected := Scan(data, pos, n);
    while pos + 8 <= |data|
      invariant Scan(data, pos, n) == expected
      decreases |data| + 8 - pos
    {
      var next := CountChunk(data, pos, n);
      if next.Failure? { return Failure(next.error); }
      n, pos := next.value.0, next.value.1;
    }
    return Success(n);
  }
}

/** What the two WAV readers make of a file written as a list of chunks, and of the writer's file. */
module WavRoundTrip {
  import opened Binary
  import opened Sequences
  import opened Wav
  import opened Wrappers

  /** A format chunk is long enough. */
  predicate Described(c: Chunk) {
    c.id == FMT ==> |c.payload| >= 16
  }

  /** What read_wav makes of a whole chunk. */
  function Interpret(c: Chunk, r: Reading): Result<Reading, Error>
    requires Described(c)
  {
    if c.id == FMT then Success(WithFormat(r, c.payload[..16]))
    else if c.id == DATA then WithSamples(r, c.payload, |c.payload|)
    else Success(r)
  }

  function InterpretAll(chunks: seq<Chunk>, r: Reading): Result<Reading, Error>
    requires forall c :: c in chunks ==> Described(c)
  {
    if chunks == [] then Success(r)
    else
      assert chunks[0] in chunks;
      match Interpret(chunks[0], r)
      case Success(next) => InterpretAll(chunks[1..], next)
      case Failure(e) => Failure(e)
  }

  function CountAll(chunks: seq<Chunk>, n: Counts): Result<Counts, Error> {
    if chunks == [] then Success(n)
    else
      match Count(chunks[0], n)
      case Success(next) => CountAll(chunks[1..], next)
      case Failure(e) => Failure(e)
  }

  /** A chunk at an offset: its id, its size and its payload. */
  ghost predicate ChunkAt(data: Bytes, pos: nat, c: Chunk) {
    && pos + 8 + |c.payload| <= |data| && data[pos..pos + 4] == c.id
    && LittleEndian(data[pos + 4..pos + 8]) == |c.payload|
    && data[pos + 8..pos + 8 + |c.payload|] == c.payload
  }

  lemma ChunkStands(data: Bytes, pos: nat, c: Chunk)
    requires Stands(data, pos, Unpadded(c)) && ValidChunk(c)
    ensures ChunkAt(data, pos, c) && |Unpadded(c)| == 8 + |c.payload|
  {
    var all := Unpadded(c);
    StandsInside(data, pos, all, 0, 4);
    assert all[0..4] == c.id;
    StandsInside(data, pos, all, 4, 8);
    assert all[4..8] == Packed(|c.payload|, 4);
    PackedWord(|c.payload|);
    StandsInside(data, pos, all, 8, |all|);
    assert all[8..] == c.payload;
  }

  lemma WalkChunk(data: Bytes, pos: nat, c: Chunk, r: Reading)
    requires ChunkAt(data, pos, c) && Described(c)
    ensures Walk(data, pos, r) == match Interpret(c, r)
                                  case Success(next) => Walk(data, pos + 8 + |c.payload|, next)
                                  case Failure(e) => Failure(e)
  {
    WholeChunk(data, pos + 8, c, r);
  }

  lemma WholeChunk(data: Bytes, at: nat, c: Chunk, r: Reading)
    requires at + |c.payload| <= |data| && data[at..at + |c.payload|] == c.payload && Described(c)
    ensures ReadChunk(data, at, c.id, |c.payload|, r)
         == match Interpret(c, r)
            case Success(next) => Success((next, at + |c.payload|))
            case Failure(e) => Failure(e)
  {
    if c.id == FMT {
      assert data[at..at + 16] == c.payload[..16];
    }
  }

  lemma WalkStanding(data: Bytes, pos: nat, c: Chunk, r: Reading)
    requires Stands(data, pos, Unpadded(c)) && ValidChunk(c) && Described(c)
    ensures Walk(data, pos, r) == match Interpret(c, r)
                                  case Success(next) => Walk(data, pos + |Unpadded(c)|, next)
                                  case Failure(e) => Failure(e)
  {
    hide Walk, Interpret, Unpadded, ChunkAt, Stands;
    ChunkStands(data, pos, c);
    WalkChunk(data, pos, c, r);
  }

  /** The chunks stand one after the other, up to `end`. */
  ghost predicate Laid(data: Bytes, pos: nat, write: Chunk -> Bytes, chunks: seq<Chunk>, end: nat)
    decreases |chunks|
  {
    if chunks == [] then pos == end <= |data|
    else
      && Stands(data, pos, write(chunks[0])) && ValidChunk(chunks[0])
      && Laid(data, pos + |write(chunks[0])|, write, chunks[1..], end)
  }

  lemma {:induction false} WrittenIsLaid(data: Bytes, pos: nat, write: Chunk -> Bytes, chunks: seq<Chunk>)
    requires Stands(data, pos, FlatMap(write, chunks)) && forall c :: c in chunks ==> ValidChunk(c)
    ensures Laid(data, pos, write, chunks, pos + |FlatMap(write, chunks)|)
    decreases |chunks|
  {
    if chunks != [] {
      StandsFirst(data, pos, write, chunks);
      WrittenIsLaid(data, pos + |write(chunks[0])|, write, chunks[1..]);
    }
  }

  /** read_wav reads any list of chunks written without pad bytes, and goes on where they end. */
  lemma {:induction false} WalkChunks(data: Bytes, pos: nat, chunks: seq<Chunk>, end: nat, r: Reading)
    requires Laid(data, pos, Unpadded, chunks, end) && forall c :: c in chunks ==> Described(c)
    ensures pos <= |data| && end <= |data|
    ensures Walk(data, pos, r) == match InterpretAll(chunks, r)
                                  case Success(next) => Walk(data, end, next)
                                  case Failure(e) => Failure(e)
    decreases |chunks|
  {
    hide Walk, Unpadded, Stands, Interpret;
    if chunks != [] {
      WalkStanding(data, pos, chunks[0], r);
      match Interpret(chunks[0], r) {
        case Success(next) => WalkChunks(data, pos + |Unpadded(chunks[0])|, chunks[1..], end, next);
        case Failure(e) => LaidEnd(data, pos, Unpadded, chunks, end);
      }
    }
  }

  lemma {:induction false} LaidEnd(data: Bytes, pos: nat, write: Chunk -> Bytes, chunks: seq<Chunk>, end: nat)
    requires Laid(data, pos, write, chunks, end)
    ensures pos <= end <= |data|
    decreases |chunks|
  {
    if chunks != [] {
      LaidEnd(data, pos + |write(chunks[0])|, write, chunks[1..], end);
    }
  }

  lemma ScanChunk(data: Bytes, pos: nat, c: Chunk, n: Counts)
    requires ChunkAt(data, pos, c)
    ensures Scan(data, pos, n) == match Count(c, n)
                                  case Success(next) => Scan(data, pos + 8 + WithPad(|c.payload|), next)
                                  case Failure(e) => Failure(e)
  {
    hide Count, LittleEndian;
  }

  lemma PaddedStands(data: Bytes, pos: nat, c: Chunk)
    requires Stands(data, pos, Padded(c)) && ValidChunk(c)
    ensures ChunkAt(data, pos, c) && |Padded(c)| == 8 + WithPad(|c.payload|)
  {
    StandsInside(data, pos, Padded(c), 0, |Unpadded(c)|);
    assert Padded(c)[0..|Unpadded(c)|] == Unpadded(c);
    ChunkStands(data, pos, c);
  }

  lemma ScanStanding(data: Bytes, pos: nat, c: Chunk, n: Counts)
    requires Stands(data, pos, Padded(c)) && ValidChunk(c)
    ensures Scan(data, pos, n) == match Count(c, n)
                                  case Success(next) => Scan(data, pos + |Padded(c)|, next)
                                  case Failure(e) => Failure(e)
  {
    hide Scan, Count, Padded, ChunkAt, Stands;
    PaddedStands(data, pos, c);
    ScanChunk(data, pos, c, n);
  }

  /** wav_duration reads any list of chunks written with pad bytes, and goes on where they end. */
  lemma {:induction false} ScanAll(data: Bytes, pos: nat, chunks: seq<Chunk>, end: nat, n: Counts)
    requires Laid(data, pos, Padded, chunks, end)
    ensures Scan(data, pos, n) == match CountAll(chunks, n)
                                  case Success(next) => Scan(data, end, next)
                                  case Failure(e) => Failure(e)
    decreases |chunks|
  {
    hide Scan, Padded, Stands, Count;
    if chunks != [] {
      ScanStanding(data, pos, chunks[0], n);
      match Count(chunks[0], n) {
        case Success(next) => ScanAll(data, pos + |Padded(chunks[0])|, chunks[1..], end, next);
        case Failure(e) =>
      }
    }
  }

  /**
   The whole chunks from an offset on, each followed by a byte of any value after an odd payload, up to the
   last place with room for a header; None when one of them is cut short.
   */
  function ChunksFrom(data: Bytes, pos: nat): Option<seq<Chunk>>
    decreases |data| + 8 - pos
  {
    if pos + 8 > |data| then Some([])
    else
      var (size, at) := (LittleEndian(data[pos + 4..pos + 8]), pos + 8);
      if size > |data| - at then None
      else
        match ChunksFrom(data, at + WithPad(size))
        case Some(rest) => Some([Chunk(data[pos..pos + 4], data[at..at + size])] + rest)
        case None => None
  }

  /** The chunk at an offset with room for a header, unless it is cut short. */
  function ChunkFrom(data: Bytes, pos: nat): Option<Chunk>
    requires pos + 8 <= |data|
  {
    var (size, at) := (LittleEndian(data[pos + 4..pos + 8]), pos + 8);
    if size > |data| - at then None else Some(Chunk(data[pos..pos + 4], data[at..at + size]))
  }

  lemma {:induction false} CountCons(c: Chunk, rest: seq<Chunk>, n: Counts)
    ensures CountAll([c] + rest, n) == match Count(c, n)
                                       case Success(next) => CountAll(rest, next)
                                       case Failure(e) => Failure(e)
  {
    assert ([c] + rest)[1..] == rest;
  }

  /** A chunk cut short stops both the walk and the list. */
  lemma ScanCut(data: Bytes, pos: nat, n: Counts)
    requires pos + 8 <= |data| && ChunkFrom(data, pos).None?
    ensures Scan(data, pos, n).Failure? && ChunksFrom(data, pos).None?
  {
  }

  /** Otherwise both go on after it. */
  lemma ScanGoesOn(data: Bytes, pos: nat, n: Counts, c: Chunk, end: nat)
    requires pos + 8 <= |data| && ChunkFrom(data, pos) == Some(c) && end == pos + 8 + WithPad(|c.payload|)
    ensures Count(c, n).Failure? ==> Scan(data, pos, n).Failure?
    ensures Count(c, n).Success? ==> Scan(data, pos, n) == Scan(data, end, Count(c, n).value)
    ensures ChunksFrom(data, end).None? ==> ChunksFrom(data, pos).None?
    ensures ChunksFrom(data, end).Some? ==> ChunksFrom(data, pos) == Some([c] + ChunksFrom(data, end).value)
  {
    hide Count, LittleEndian;
  }

  /** On any bytes wav_duration's walk succeeds exactly on whole chunks it can count, with their counts. */
  lemma {:induction false} ScanExact(data: Bytes, pos: nat, n: Counts)
    ensures Scan(data, pos, n).Success? <==>
            ChunksFrom(data, pos).Some? && CountAll(ChunksFrom(data, pos).value, n).Success?
    ensures Scan(data, pos, n).Success? ==> Scan(data, pos, n) == CountAll(ChunksFrom(data, pos).value, n)
    decreases |data| + 8 - pos
  {
    if pos + 8 <= |data| {
      if ChunkFrom(data, pos).None? {
        ScanCut(data, pos, n);
      } else {
        var c := ChunkFrom(data, pos).value;
        var end := pos + 8 + WithPad(|c.payload|);
        ScanGoesOn(data, pos, n, c, end);
        if ChunksFrom(data, end).Some? { CountCons(c, ChunksFrom(data, end).value, n); }
        if Count(c, n).Success? { ScanExact(data, end, Count(c, n).value); }
      }
    }
  }

  /** So the duration is given exactly for a RIFF file of whole, countable chunks with a format and audio. */
  lemma DurationExact(data: Bytes)
    ensures Duration(data).Success? <==>
            && 12 <= |data| <= 0x1_0000_0000 && data[..4] == RIFF && data[8..12] == WAVE
            && ChunksFrom(data, 12).Some?
            && var counts := CountAll(ChunksFrom(data, 12).value, Counts(0, 0));
               counts.Success? && counts.value.byteRate > 0 && counts.value.dataBytes > 0
    ensures Duration(data).Success? ==>
              var counts := CountAll(ChunksFrom(data, 12).value, Counts(0, 0)).value;
              Duration(data).value == counts.dataBytes as real / counts.byteRate as real
  {
    ScanExact(data, 12, Counts(0, 0));
  }

  lemma FileStarts(size: nat, chunks: Bytes, tail: Bytes)
    ensures var data := File(size, chunks + tail);
            && |data| == 12 + |chunks| + |tail| && RIFF <= data && data[..4] == RIFF && data[8..12] == WAVE
            && Stands(data, 12, chunks)
  {
  }

  /** read_wav reads the chunks at the front of a file, and goes on where they end. */
  lemma FrontRead(size: nat, chunks: seq<Chunk>, tail: Bytes)
    requires forall c :: c in chunks ==> ValidChunk(c) && Described(c)
    ensures 12 + |FlatMap(Unpadded, chunks)| <= |File(size, FlatMap(Unpadded, chunks) + tail)|
    ensures var data, end := File(size, FlatMap(Unpadded, chunks) + tail), 12 + |FlatMap(Unpadded, chunks)|;
            Decoded(data) == match InterpretAll(chunks, NOTHING)
                             case Success(r) => Walk(data, end, r)
                             case Failure(e) => Failure(e)
  {
    hide File, FlatMap, Walk, InterpretAll, Laid, Unpadded;
    var data := File(size, FlatMap(Unpadded, chunks) + tail);
    FileStarts(size, FlatMap(Unpadded, chunks), tail);
    WrittenIsLaid(data, 12, Unpadded, chunks);
    WalkChunks(data, 12, chunks, 12 + |FlatMap(Unpadded, chunks)|, NOTHING);
  }

  /** read_wav folds the chunks of any file written without pad bytes. */
  lemma UnpaddedFile(size: nat, chunks: seq<Chunk>, tail: Bytes)
    requires |tail| < 4 && forall c :: c in chunks ==> ValidChunk(c) && Described(c)
    ensures Decoded(File(size, FlatMap(Unpadded, chunks) + tail)) == InterpretAll(chunks, NOTHING)
  {
    FrontRead(size, chunks, tail);
    FileStarts(size, FlatMap(Unpadded, chunks), tail);
  }

  /** wav_duration counts the chunks of any file written with pad bytes. */
  lemma PaddedFile(size: nat, chunks: seq<Chunk>, tail: Bytes)
    requires |tail| < 8 && forall c :: c in chunks ==> ValidChunk(c)
    ensures Scan(File(size, FlatMap(Padded, chunks) + tail), 12, Counts(0, 0)) == CountAll(chunks, Counts(0, 0))
  {
    var data := File(size, FlatMap(Padded, chunks) + tail);
    FileStarts(size, FlatMap(Padded, chunks), tail);
    WrittenIsLaid(data, 12, Padded, chunks);
    ScanAll(data, 12, chunks, 12 + |FlatMap(Padded, chunks)|, Counts(0, 0));
  }

  /** Without odd payloads there are no pad bytes, so both readers see the same chunks. */
  lemma {:induction false} EvenIsUnpadded(chunks: seq<Chunk>)
    requires forall c :: c in chunks ==> |c.payload| % 2 == 0
    ensures FlatMap(Padded, chunks) == FlatMap(Unpadded, chunks)
  {
    if chunks != [] {
      assert chunks[0] in chunks;
      assert Padded(chunks[0]) == Unpadded(chunks[0]);
      EvenIsUnpadded(chunks[1..]);
    }
  }

  // ---------------------------------------------------------------- the writer's file

  lemma {:induction false} FloatsOfSamples(samples: seq<Float>)
    ensures Floats(SampleBytes(samples)) == Map((w: Float) => FloatSample(w), samples)
  {
    if samples != [] {
      var w, rest := samples[0], SampleBytes(samples[1..]);
      assert SampleBytes(samples) == Packed(w, 4) + rest;
      assert SampleBytes(samples)[..4] == Packed(w, 4) && SampleBytes(samples)[4..] == rest;
      PackedWord(w);
      FloatsOfSamples(samples[1..]);
      assert Map((w: Float) => FloatSample(w), samples)
          == [FloatSample(w)] + Map((w: Float) => FloatSample(w), samples[1..]);
    }
  }

  /** What a format chunk of 32-bit floats says. */
  ghost predicate Says(format: Bytes, rate: nat, channels: nat, byteRate: nat) {
    && |format| == 16 && LittleEndian(format[..2]) == 3 && LittleEndian(format[2..4]) == channels
    && LittleEndian(format[4..8]) == rate && LittleEndian(format[8..12]) == byteRate
    && LittleEndian(format[14..16]) == 32
  }

  lemma SixFields(a: Bytes, b: Bytes, c: Bytes, d: Bytes, e: Bytes, f: Bytes)
    requires |a| == 2 && |b| == 2 && |c| == 4 && |d| == 4 && |e| == 2 && |f| == 2
    ensures var r := a + b + c + d + e + f;
            |r| == 16 && r[..2] == a && r[2..4] == b && r[4..8] == c && r[8..12] == d && r[14..16] == f
  {
  }

  lemma FormatSays(rate: nat, channels: nat, byteRate: nat)
    requires channels < 0x1_0000 && rate < 0x1_0000_0000 && byteRate < 0x1_0000_0000
    ensures Says(FloatFormat(rate, channels, byteRate), rate, channels, byteRate)
  {
    SixFields(Packed(3, 2), Packed(channels, 2), Packed(rate, 4), Packed(byteRate, 4), Packed(channels * 4, 2),
              Packed(32, 2));
    PackedHalf(3);
    PackedHalf(channels);
    PackedWord(rate);
    PackedWord(byteRate);
    PackedHalf(32);
  }

  lemma InterpretOne(c: Chunk, r: Reading)
    requires Described(c)
    ensures InterpretAll([c], r) == Interpret(c, r)
  {
  }

  lemma InterpretTwo(a: Chunk, b: Chunk, r: Reading)
    requires Described(a) && Described(b) && Interpret(a, r).Success?
    ensures InterpretAll([a, b], r) == Interpret(b, Interpret(a, r).value)
  {
    assert [a, b][1..] == [b];
    InterpretOne(b, Interpret(a, r).value);
  }

  lemma CountOne(c: Chunk, n: Counts)
    ensures CountAll([c], n) == Count(c, n)
  {
  }

  lemma CountTwo(a: Chunk, b: Chunk, n: Counts)
    ensures CountAll([a, b], n) == match Count(a, n) case Success(next) => Count(b, next) case Failure(e) => Failure(e)
  {
    assert [a, b][1..] == [b];
    if Count(a, n).Success? {
      CountOne(b, Count(a, n).value);
    }
  }

  /** Both readers see a format and a data chunk of even size as the writer wrote them. */
  lemma TwoChunkFile(size: nat, two: seq<Chunk>)
    requires |two| == 2 && forall c :: c in two ==> ValidChunk(c) && Described(c) && |c.payload| % 2 == 0
    ensures var data := File(size, FlatMap(Unpadded, two));
            && Decoded(data) == InterpretAll(two, NOTHING)
            && Scan(data, 12, Counts(0, 0)) == CountAll(two, Counts(0, 0))
            && |data| == 28 + |two[0].payload| + |two[1].payload| && data[..4] == RIFF && data[8..12] == WAVE
  {
    var bytes := FlatMap(Unpadded, two);
    assert bytes + [] == bytes;
    UnpaddedFile(size, two, []);
    EvenIsUnpadded(two);
    PaddedFile(size, two, []);
    FileStarts(size, bytes, []);
    Joined(two[0], two[1]);
    assert two == [two[0], two[1]];
  }

  lemma InterpretFloats(format: Bytes, samples: seq<Float>, rate: nat, channels: nat, byteRate: nat)
    requires Says(format, rate, channels, byteRate)
    ensures InterpretAll(TwoChunks(format, samples), NOTHING)
         == Success(Reading(3, channels, rate, 32, Map((w: Float) => FloatSample(w), samples)))
  {
    SampleBytesLength(samples);
    FloatsOfSamples(samples);
    assert format[..16] == format;
    InterpretTwo(Chunk(FMT, format), Chunk(DATA, SampleBytes(samples)), NOTHING);
  }

  lemma ReadsBack(format: Bytes, samples: seq<Float>, rate: nat, channels: nat, byteRate: nat)
    requires Says(format, rate, channels, byteRate) && 4 * |samples| < 0x1_0000_0000
    ensures Decoded(FileWith(format, samples))
         == Success(Reading(3, channels, rate, 32, Map((w: Float) => FloatSample(w), samples)))
  {
    hide Decoded, InterpretAll, FlatMap, Packed, File, SampleBytes, Scan, CountAll;
    TwoChunksValid(format, samples);
    InterpretFloats(format, samples, rate, channels, byteRate);
    TwoChunkFile(36 + 4 * |samples|, TwoChunks(format, samples));
  }

  /** read_wav gives back what was written. */
  lemma WrittenReadsBack(samples: seq<Float>, rate: nat, channels: nat)
    requires FitsHeader(|samples|, rate, channels)
    ensures Decoded(Written(samples, rate, channels))
         == Success(Reading(3, channels, rate, 32, Map((w: Float) => FloatSample(w), samples)))
  {
    FormatSays(rate, channels, rate * channels * 4);
    ReadsBack(FloatFormat(rate, channels, rate * channels * 4), samples, rate, channels, rate * channels * 4);
  }

  lemma CountsBack(format: Bytes, samples: seq<Float>, rate: nat, channels: nat, byteRate: nat)
    requires Says(format, rate, channels, byteRate) && 4 * |samples| < 0x1_0000_0000
    requires byteRate == 0 <==> channels == 0 || rate == 0
    ensures Duration(FileWith(format, samples))
         == if 44 + 4 * |samples| > 0x1_0000_0000 then Failure(BadSize)
            else if channels == 0 || rate == 0 then Failure(UnsupportedFormat)
            else if samples == [] then Failure(NoUsableChunks)
            else Success((4 * |samples|) as real / byteRate as real)
  {
    hide Scan, CountAll, FlatMap, File, Decoded, InterpretAll, TwoChunks, ValidChunk, Described;
    TwoChunksValid(format, samples);
    TwoChunkFile(36 + 4 * |samples|, TwoChunks(format, samples));
    CountFloats(format, samples, rate, channels, byteRate);
  }

  lemma TwoChunksValid(format: Bytes, samples: seq<Float>)
    requires |format| == 16 && 4 * |samples| < 0x1_0000_0000
    ensures var two := TwoChunks(format, samples);
            && (forall c :: c in two ==> ValidChunk(c) && Described(c) && |c.payload| % 2 == 0)
            && |two| == 2 && two[0].payload == format && |two[1].payload| == 4 * |samples|
  {
    hide SampleBytes;
    SampleBytesLength(samples);
  }

  lemma CountFloats(format: Bytes, samples: seq<Float>, rate: nat, channels: nat, byteRate: nat)
    requires Says(format, rate, channels, byteRate)
    ensures CountAll(TwoChunks(format, samples), Counts(0, 0))
         == if channels == 0 || rate == 0 then Failure(UnsupportedFormat) else Success(Counts(byteRate, 4 * |samples|))
  {
    hide CountAll, SampleBytes, LittleEndian;
    SampleBytesLength(samples);
    CountTwo(Chunk(FMT, format), Chunk(DATA, SampleBytes(samples)), Counts(0, 0));
  }

  /** The samples of all channels over the rate of each. */
  function Seconds(samples: nat, rate: nat, channels: nat): real
    requires rate > 0 && channels > 0
  {
    assert rate * channels > 0;
    samples as real / (rate * channels) as real
  }

  lemma SecondsOfFrames(samples: nat, frameRate: nat)
    requires frameRate > 0
    ensures (4 * samples) as real / (frameRate * 4) as real == samples as real / frameRate as real
  {
  }

  /** wav_duration gives the frames over the rate, and fails exactly on a file without audio. */
  lemma WrittenDuration(samples: seq<Float>, rate: nat, channels: nat)
    requires FitsHeader(|samples|, rate, channels)
    ensures Duration(Written(samples, rate, channels))
         == if 44 + 4 * |samples| > 0x1_0000_0000 then Failure(BadSize)
            else if channels == 0 || rate == 0 then Failure(UnsupportedFormat)
            else if samples == [] then Failure(NoUsableChunks)
            else Success(Seconds(|samples|, rate, channels))
  {
    hide Duration, FileWith, FloatFormat;
    FormatSays(rate, channels, rate * channels * 4);
    CountsBack(FloatFormat(rate, channels, rate * channels * 4), samples, rate, channels, rate * channels * 4);
    if channels > 0 && rate > 0 {
      SecondsOfFrames(|samples|, rate * channels);
    }
  }

  // ---------------------------------------------------------------- where the readers differ

  /** The file of even chunks, an odd one and others: the pad byte stands alone between them. */
  lemma AroundPad(before: seq<Chunk>, odd: Chunk, after: seq<Chunk>)
    requires (forall c :: c in before ==> |c.payload| % 2 == 0) && |odd.payload| % 2 == 1
    ensures FlatMap(Padded, before + [odd] + after)
         == FlatMap(Unpadded, before + [odd]) + ([0] + FlatMap(Padded, after))
  {
    FlatMapAppend(Padded, before + [odd], after);
    FlatMapAppend(Padded, before, [odd]);
    FlatMapAppend(Unpadded, before, [odd]);
    FlatMapOne(Padded, odd);
    FlatMapOne(Unpadded, odd);
    EvenIsUnpadded(before);
    Assoc(FlatMap(Unpadded, before), Unpadded(odd), [0]);
    Assoc(FlatMap(Unpadded, before + [odd]), [0], FlatMap(Padded, after));
  }

  /** What a header read one byte early takes for its size: the id's last byte and three bytes of the size. */
  function ShiftedSize(c: Chunk): nat
    requires |c.id| == 4
  {
    c.id[3] + 256 * (|c.payload| % 0x100_0000)
  }

  /**
   After an odd chunk the pad byte puts read_wav one byte off: it goes on with a chunk of unknown id and
   shifted size, so where less than that remains it reports the chunks up to the odd one and no others,
   while wav_duration counts them all.
   */
  lemma OddChunkHidesAudio(size: nat, before: seq<Chunk>, odd: Chunk, c: Chunk, rest: seq<Chunk>)
    requires forall x :: x in before ==> |x.payload| % 2 == 0
    requires |odd.payload| % 2 == 1 && ValidChunk(c)
    requires forall x :: x in before + [odd] + ([c] + rest) ==> ValidChunk(x)
    requires forall x :: x in before + [odd] ==> Described(x)
    requires |FlatMap(Padded, [c] + rest)| < 7 + ShiftedSize(c) + 4
    ensures var chunks := before + [odd] + ([c] + rest);
            var data := File(size, FlatMap(Padded, chunks));
            && Decoded(data) == InterpretAll(before + [odd], NOTHING)
            && Scan(data, 12, Counts(0, 0)) == CountAll(chunks, Counts(0, 0))
  {
    var chunks, read := before + [odd] + ([c] + rest), before + [odd];
    var bytes := FlatMap(Padded, chunks);
    assert bytes + [] == bytes;
    PaddedFile(size, chunks, []);
    AroundPad(before, odd, [c] + rest);
    assert forall x :: x in read ==> x in chunks;
    assert ([c] + rest)[1..] == rest;
    MisreadAfterPad(size, read, c, FlatMap(Padded, rest));
  }

  lemma MisreadAfterPad(size: nat, read: seq<Chunk>, c: Chunk, rest: Bytes)
    requires ValidChunk(c) && forall x :: x in read ==> ValidChunk(x) && Described(x)
    requires |Padded(c) + rest| < 7 + ShiftedSize(c) + 4
    ensures Decoded(File(size, FlatMap(Unpadded, read) + ([0] + (Padded(c) + rest)))) == InterpretAll(read, NOTHING)
  {
    var front, after := FlatMap(Unpadded, read), Padded(c) + rest;
    var data, pad := File(size, front + ([0] + after)), 12 + |front|;
    FrontRead(size, read, [0] + after);
    PadStands(size, front, after);
    StandsInside(data, pad + 1, after, 0, |Padded(c)|);
    assert after[0..|Padded(c)|] == Padded(c);
    if InterpretAll(read, NOTHING).Success? {
      OffByOne(data, pad, c, InterpretAll(read, NOTHING).value);
    }
  }

  lemma PadStands(size: nat, before: Bytes, after: Bytes)
    ensures var data := File(size, before + ([0] + after));
            |data| == 13 + |before| + |after| && data[12 + |before|] == 0 && Stands(data, 13 + |before|, after)
  {
    var data, head := File(size, before + ([0] + after)), RIFF + Packed(size, 4) + WAVE;
    assert data == (head + before + [0]) + after;
    assert data[|head| + |before|] == 0;
  }

  /** A header that starts one byte early has an unknown id and the shifted size. */
  lemma OffByOne(data: Bytes, pos: nat, c: Chunk, r: Reading)
    requires Stands(data, pos + 1, Padded(c)) && ValidChunk(c) && data[pos] == 0
    requires |data| < pos + 8 + ShiftedSize(c) + 4
    ensures pos <= |data| && Walk(data, pos, r) == Success(r)
  {
    var header := Padded(c)[0..8];
    StandsInside(data, pos + 1, Padded(c), 0, 8);
    assert header == c.id + Packed(|c.payload|, 4);
    StandsInside(data, pos + 1, header, 3, 7);
    ShiftedHeader(c);
    assert data[pos..pos + 4][0] == 0 && FMT[0] == 0x66 && DATA[0] == 0x64;
  }

  lemma ShiftedHeader(c: Chunk)
    requires ValidChunk(c)
    ensures LittleEndian((c.id + Packed(|c.payload|, 4))[3..7]) == ShiftedSize(c)
  {
    var n := |c.payload|;
    PackedPrefix(n);
    assert (c.id + Packed(n, 4))[3..7] == [c.id[3]] + Packed(n, 3);
    assert ([c.id[3]] + Packed(n, 3))[1..] == Packed(n, 3);
  }

  lemma PackedPrefix(n: nat)
    ensures Packed(n, 4)[..3] == Packed(n, 3) && LittleEndian(Packed(n, 3)) == n % 0x100_0000
  {
    PackedTake(n, 4);
    PackedFirst(n, 3);
    PackedFirst(n / 256, 2);
    PackedFirst(n / 256 / 256, 1);
    LowBytes(n);
  }

  lemma PackedFirst(value: nat, size: nat)
    requires size > 0
    ensures LittleEndian(Packed(value, size)) == value % 256 + 256 * LittleEndian(Packed(value / 256, size - 1))
  {
    assert Packed(value, size)[1..] == Packed(value / 256, size - 1);
  }

  lemma LowBytes(n: nat)
    ensures n % 256 + 256 * (n / 256 % 256 + 256 * (n / 256 / 256 % 256)) == n % 0x100_0000
  {
    var a, b, high := n % 256, n / 256 % 256, n / 256 / 256;
    assert n == a + 256 * (b + 256 * high);
  }

  lemma {:induction false} PackedTake(value: nat, size: nat)
    requires size > 0
    ensures Packed(value, size)[..size - 1] == Packed(value, size - 1)
  {
    if size > 1 {
      PackedTake(value / 256, size - 1);
      assert Packed(value, size)[..size - 1] == [value % 256] + Packed(value / 256, size - 1)[..size - 2];
    }
  }

  /** An odd data chunk in a format it supports stops read_wav. */
  lemma OddDataRefused(size: nat, before: seq<Chunk>, odd: Chunk, tail: Bytes)
    requires forall x :: x in before + [odd] ==> ValidChunk(x) && Described(x)
    requires odd.id == DATA && |odd.payload| % 2 == 1
    requires InterpretAll(before, NOTHING).Success?
    requires var r := InterpretAll(before, NOTHING).value;
             (r.audioFormat == 3 && r.bits == 32) || (r.audioFormat == 1 && r.bits == 16)
    ensures Decoded(File(size, FlatMap(Unpadded, before + [odd]) + tail)) == Failure(ShortRead)
  {
    hide Decoded, Walk, File, FlatMap, InterpretAll, Unpadded, Floats, Shorts;
    FrontRead(size, before + [odd], tail);
    InterpretAppend(before, odd, NOTHING);
  }

  lemma {:induction false} InterpretAppend(chunks: seq<Chunk>, last: Chunk, r: Reading)
    requires forall c :: c in chunks + [last] ==> Described(c)
    ensures (forall c :: c in chunks ==> Described(c)) && Described(last)
    ensures InterpretAll(chunks + [last], r) == match InterpretAll(chunks, r)
                                                case Success(next) => Interpret(last, next)
                                                case Failure(e) => Failure(e)
  {
    assert last in chunks + [last] && forall c :: c in chunks ==> c in chunks + [last];
    if chunks == [] {
      assert chunks + [last] == [last];
      InterpretOne(last, r);
    } else {
      assert (chunks + [last])[1..] == chunks[1..] + [last];
      match Interpret(chunks[0], r) {
        case Success(next) => InterpretAppend(chunks[1..], last, next);
        case Failure(e) =>
      }
    }
  }

  /** An odd chunk at the end does no harm: only its pad byte is left over. */
  lemma OddLastHarmless(size: nat, before: seq<Chunk>, odd: Chunk)
    requires (forall x :: x in before ==> |x.payload| % 2 == 0) && |odd.payload| % 2 == 1
    requires forall x :: x in before + [odd] ==> ValidChunk(x) && Described(x)
    ensures Decoded(File(size, FlatMap(Padded, before + [odd]))) == InterpretAll(before + [odd], NOTHING)
  {
    AroundPad(before, odd, []);
    assert before + [odd] + [] == before + [odd] && [0] + FlatMap(Padded, []) == [0];
    UnpaddedFile(size, before + [odd], [0]);
  }
}

/**
 The helper synthesis monitor: synthesize and validate_marker of tools/stress_helper.py, over the
 decoded response frames of one synthesis request.
 */
module SynthesisMonitor {
  import opened Wrappers

  /** A JSON field that should hold a whole number. */
  datatype Field = Missing | Number(value: int) | NotANumber

  datatype Marker = Marker(offset: Field, textStart: Field, textLength: Field, kind: string, value: string,
                           resolution: string)

  /** A chunk's size is None when its data is not valid Base64; a frame for another request is Other. */
  datatype Frame =
    | Started(sampleRate: int, channels: int, sampleFormat: string, voice: string)
    | Chunk(sequence: int, size: Option<nat>)
    | Markers(values: seq<Marker>)
    | Completed(frameCount: int)
    | Other

  /** What the caller asked for and what the helper advertises. */
  datatype Request = Request(voice: string, progressive: bool, textSize: nat, requiredKinds: set<string>,
                             anchors: seq<string>, resolutions: Option<set<string>>, exactBounds: bool)

  datatype Error =
    | DuplicateStart | InvalidFormat | WrongVoice | OutOfOrderChunk | InvalidPcm | PartialFrame
    | InvalidBatch | NotStarted | MarkerBehindAudio | MarkersNotMonotonic | WrongTotal
    | MarkerOutsideAudio | MissingKind | MissingAnchor | InvalidResolution | WrongBounds | UnexpectedFrame | TimedOut

  // ---------------------------------------------------------------- what a stream amounts to

  function AudioBytes(t: seq<Frame>): nat {
    if t == [] then 0
    else
      var last := t[|t| - 1];
      AudioBytes(t[..|t| - 1]) + if last.Chunk? && last.size.Some? then last.size.value else 0
  }

  function ChunkCount(t: seq<Frame>): nat {
    if t == [] then 0 else ChunkCount(t[..|t| - 1]) + if t[|t| - 1].Chunk? then 1 else 0
  }

  function AllMarkers(t: seq<Frame>): seq<Marker> {
    if t == [] then []
    else AllMarkers(t[..|t| - 1]) + if t[|t| - 1].Markers? then t[|t| - 1].values else []
  }

  /** The channel count of the last start, zero before any. */
  function Channels(t: seq<Frame>): int {
    if t == [] then 0
    else if t[|t| - 1].Started? then t[|t| - 1].channels
    else Channels(t[..|t| - 1])
  }

  /** Complete sample frames delivered so far. */
  function Published(t: seq<Frame>): int {
    if Channels(t) > 0 then AudioBytes(t) / (Channels(t) * 2) else 0
  }

  // ---------------------------------------------------------------- the lawful streams

  ghost predicate ValidFormat(f: Frame, request: Request)
    requires f.Started?
  {
    && f.sampleRate > 0 && (f.channels == 1 || f.channels == 2) && f.sampleFormat == "pcm_s16_le"
    && f.voice == request.voice
  }

  /** A progressive offset: a whole number, not behind the audio, not behind the marker before it. */
  ghost predicate InOrder(markers: seq<Marker>, k: nat, published: int)
    requires k < |markers|
  {
    && markers[k].offset.Number? && markers[k].offset.value >= published
    && (k > 0 ==> markers[k - 1].offset.Number? && markers[k - 1].offset.value <= markers[k].offset.value)
  }

  ghost predicate Ahead(markers: seq<Marker>, from: nat, published: int) {
    forall k :: from <= k < |markers| ==> InOrder(markers, k, published)
  }

  /** What may follow a stream. */
  ghost predicate MayFollow(before: seq<Frame>, f: Frame, request: Request) {
    match f
    case Started(_, _, _, _) => Channels(before) == 0 && ValidFormat(f, request)
    case Chunk(sequence, size) =>
      && Channels(before) > 0 && sequence == ChunkCount(before)
      && size.Some? && size.value % (Channels(before) * 2) == 0
    case Markers(values) =>
      && values != []
      && (request.progressive ==>
            Channels(before) > 0 && Ahead(AllMarkers(before) + values, |AllMarkers(before)|, Published(before)))
    case Completed(_) => false
    case Other => false
  }

  ghost predicate Lawful(t: seq<Frame>, request: Request) {
    forall i {:trigger t[i]} :: 0 <= i < |t| ==> MayFollow(t[..i], t[i], request)
  }

  // ---------------------------------------------------------------- the closing checks

  /** validate_marker. */
  predicate MarkerInRange(m: Marker, frameCount: int, textSize: nat) {
    && m.offset.Number? && 0 <= m.offset.value <= frameCount
    && (m.textStart.Missing? <==> m.textLength.Missing?)
    && (!m.textStart.Missing? ==>
          && m.textStart.Number? && m.textLength.Number?
          && m.textStart.value >= 0 && m.textLength.value >= 0
          && m.textStart.value + m.textLength.value <= textSize)
  }

  predicate Resolves(m: Marker, anchor: string) {
    m.kind == "requested_anchor" && m.value == anchor
  }

  /** The first marker that answers an anchor. */
  function FirstAnswer(markers: seq<Marker>, anchor: string): Option<Marker> {
    if markers == [] then None
    else if Resolves(markers[0], anchor) then Some(markers[0])
    else FirstAnswer(markers[1..], anchor)
  }

  predicate Answered(markers: seq<Marker>, anchor: string, resolutions: set<string>) {
    FirstAnswer(markers, anchor).Some? && FirstAnswer(markers, anchor).value.resolution in resolutions
  }

  /** The start, middle and end anchors divide the audio: required of one engine with exact anchors. */
  predicate Bounds(markers: seq<Marker>, anchors: seq<string>, frameCount: int) {
    && |anchors| == 3
    && var (start, middle, end) :=
         (FirstAnswer(markers, anchors[0]), FirstAnswer(markers, anchors[1]), FirstAnswer(markers, anchors[2]));
       && start.Some? && middle.Some? && end.Some?
       && start.value.offset == Number(0) && end.value.offset == Number(frameCount)
       && middle.value.offset.Number? && 0 < middle.value.offset.value < frameCount
  }

  ghost predicate Closes(markers: seq<Marker>, frameCount: int, request: Request) {
    && (forall m :: m in markers ==> MarkerInRange(m, frameCount, request.textSize))
    && (forall kind :: kind in request.requiredKinds ==> exists m :: m in markers && m.kind == kind)
    && (request.resolutions.Some? ==>
          forall a :: a in request.anchors ==> Answered(markers, a, request.resolutions.value))
    && (request.resolutions.Some? && request.exactBounds ==> Bounds(markers, request.anchors, frameCount))
  }

  /** The accepted streams: lawful up to a completion that counts every frame and closes the markers. */
  ghost predicate Accepted(frames: seq<Frame>, request: Request, n: nat) {
    && n < |frames| && Lawful(frames[..n], request)
    && frames[n].Completed? && Channels(frames[..n]) > 0
    && frames[n].frameCount == Published(frames[..n]) && frames[n].frameCount > 0
    && Closes(AllMarkers(frames[..n]), frames[n].frameCount, request)
  }

  // ---------------------------------------------------------------- what acceptance guarantees

  lemma LawfulShorter(t: seq<Frame>, n: nat, request: Request)
    requires n <= |t| && Lawful(t, request)
    ensures Lawful(t[..n], request)
  {
    assert forall i :: 0 <= i < n ==> t[..n][..i] == t[..i] && t[..n][i] == t[i];
  }

  lemma LastMayFollow(t: seq<Frame>, request: Request)
    requires t != [] && Lawful(t, request)
    ensures Lawful(t[..|t| - 1], request) && MayFollow(t[..|t| - 1], t[|t| - 1], request)
  {
    LawfulShorter(t, |t| - 1, request);
  }

  lemma {:induction false} ChannelsMeansStart(t: seq<Frame>, request: Request)
    requires Lawful(t, request)
    ensures 0 <= Channels(t) <= 2
    ensures Channels(t) > 0 <==> exists s :: 0 <= s < |t| && t[s].Started?
  {
    if t != [] {
      var front := t[..|t| - 1];
      LastMayFollow(t, request);
      ChannelsMeansStart(front, request);
      if s :| 0 <= s < |front| && front[s].Started? {
        assert t[s].Started?;
      }
      if s :| 0 <= s < |t| - 1 && t[s].Started? {
        assert front[s].Started?;
      }
    }
  }

  lemma NoStartBefore(t: seq<Frame>, request: Request, s: nat)
    requires Lawful(t, request) && s < |t| && t[s].Started?
    ensures forall q :: 0 <= q < s ==> !t[q].Started?
  {
    LawfulShorter(t, s, request);
    ChannelsMeansStart(t[..s], request);
    assert MayFollow(t[..s], t[s], request);
    forall q | 0 <= q < s
      ensures !t[q].Started?
    {
      assert t[..s][q] == t[q];
    }
  }

  /** Exactly one start, and every chunk after it. */
  lemma StartsOnce(t: seq<Frame>, request: Request, s: nat)
    requires Lawful(t, request) && s < |t| && t[s].Started?
    ensures forall r :: 0 <= r < |t| && t[r].Started? ==> r == s
    ensures forall c :: 0 <= c < |t| && t[c].Chunk? ==> s < c
  {
    NoStartBefore(t, request, s);
    forall r | 0 <= r < |t| && t[r].Started?
      ensures r == s
    {
      NoStartBefore(t, request, r);
    }
    forall c | 0 <= c < |t| && t[c].Chunk?
      ensures s < c
    {
      LawfulShorter(t, c, request);
      ChannelsMeansStart(t[..c], request);
      assert MayFollow(t[..c], t[c], request);
      var q :| 0 <= q < c && t[..c][q].Started?;
      assert t[q].Started?;
    }
  }

  /** The chunks are numbered from zero, in order. */
  lemma {:induction false} ChunksNumbered(t: seq<Frame>, request: Request)
    requires Lawful(t, request)
    ensures forall c :: 0 <= c < |t| && t[c].Chunk? ==> t[c].sequence == ChunkCount(t[..c])
  {
    assert forall c :: 0 <= c < |t| ==> MayFollow(t[..c], t[c], request);
  }

  lemma TotalsStep(t: seq<Frame>, f: Frame)
    ensures AudioBytes(t + [f]) == AudioBytes(t) + if f.Chunk? && f.size.Some? then f.size.value else 0
    ensures Channels(t + [f]) == if f.Started? then f.channels else Channels(t)
    ensures AllMarkers(t + [f]) == AllMarkers(t) + if f.Markers? then f.values else []
  {
    assert (t + [f])[..|t|] == t;
  }

  lemma WholeSum(bytes: nat, more: nat, channels: int)
    requires 1 <= channels <= 2 && bytes % (channels * 2) == 0 && more % (channels * 2) == 0
    ensures (bytes + more) % (channels * 2) == 0
  {
    if channels == 1 {
      assert (bytes + more) % 2 == 0;
    } else {
      assert (bytes + more) % 4 == 0;
    }
  }

  ghost predicate Whole(t: seq<Frame>) {
    if Channels(t) > 0 then AudioBytes(t) % (Channels(t) * 2) == 0 else AudioBytes(t) == 0
  }

  lemma WholeStep(t: seq<Frame>, f: Frame, request: Request)
    requires MayFollow(t, f, request) && 0 <= Channels(t) <= 2 && Whole(t)
    ensures Whole(t + [f])
  {
    TotalsStep(t, f);
    if f.Chunk? {
      WholeSum(AudioBytes(t), f.size.value, Channels(t));
    }
  }

  /** No partial sample frame is ever left over. */
  lemma {:induction false} WholeFrames(t: seq<Frame>, request: Request)
    requires Lawful(t, request)
    ensures Channels(t) > 0 ==> AudioBytes(t) % (Channels(t) * 2) == 0
    ensures Channels(t) == 0 ==> AudioBytes(t) == 0
  {
    ChannelsMeansStart(t, request);
    if t != [] {
      var front, last := t[..|t| - 1], t[|t| - 1];
      LastMayFollow(t, request);
      ChannelsMeansStart(front, request);
      WholeFrames(front, request);
      assert front + [last] == t;
      WholeStep(front, last, request);
    }
  }

  lemma MoreFrames(bytes: nat, more: nat, channels: int)
    requires 1 <= channels <= 2
    ensures 0 <= bytes / (channels * 2) <= (bytes + more) / (channels * 2)
  {
    if channels == 1 {
      assert bytes / 2 <= (bytes + more) / 2;
    } else {
      assert bytes / 4 <= (bytes + more) / 4;
    }
  }

  lemma PublishedStep(t: seq<Frame>, f: Frame, request: Request)
    requires MayFollow(t, f, request) && 0 <= Channels(t) <= 2 && (Channels(t) == 0 ==> AudioBytes(t) == 0)
    ensures Published(t) <= Published(t + [f])
  {
    var more := if f.Chunk? then f.size.value else 0;
    TotalsStep(t, f);
    if Channels(t + [f]) > 0 {
      MoreFrames(AudioBytes(t), more, Channels(t + [f]));
    }
  }

  /** Published audio only grows. */
  lemma {:induction false} PublishedGrows(t: seq<Frame>, n: nat, request: Request)
    requires n <= |t| && Lawful(t, request)
    ensures Published(t[..n]) <= Published(t)
    decreases |t|
  {
    if n < |t| {
      var front := t[..|t| - 1];
      LastMayFollow(t, request);
      PublishedGrows(front, n, request);
      assert front[..n] == t[..n];
      ChannelsMeansStart(front, request);
      WholeFrames(front, request);
      PublishedStep(front, t[|t| - 1], request);
      assert front + [t[|t| - 1]] == t;
    } else {
      assert t[..n] == t;
    }
  }

  /** Progressive offsets are whole numbers that never decrease. */
  lemma {:induction false} OffsetsMonotonic(t: seq<Frame>, request: Request)
    requires Lawful(t, request) && request.progressive
    ensures forall j, k :: 0 <= j <= k < |AllMarkers(t)| ==>
              && AllMarkers(t)[j].offset.Number? && AllMarkers(t)[k].offset.Number?
              && AllMarkers(t)[j].offset.value <= AllMarkers(t)[k].offset.value
  {
    if t != [] {
      var front, last := t[..|t| - 1], t[|t| - 1];
      LastMayFollow(t, request);
      OffsetsMonotonic(front, request);
      if last.Markers? {
        assert Ahead(AllMarkers(t), |AllMarkers(front)|, Published(front));
        NeverDecreasing(AllMarkers(t), |AllMarkers(front)|);
      }
    }
  }

  lemma {:induction false} NeverDecreasing(markers: seq<Marker>, from: nat)
    requires from <= |markers|
    requires forall j, k :: 0 <= j <= k < from ==>
               && markers[j].offset.Number? && markers[k].offset.Number?
               && markers[j].offset.value <= markers[k].offset.value
    requires exists published :: Ahead(markers, from, published)
    ensures forall j, k :: 0 <= j <= k < |markers| ==>
              && markers[j].offset.Number? && markers[k].offset.Number?
              && markers[j].offset.value <= markers[k].offset.value
    decreases |markers| - from
  {
    if from < |markers| {
      var published :| Ahead(markers, from, published);
      assert InOrder(markers, from, published);
      forall j | 0 <= j < from
        ensures markers[j].offset.Number? && markers[j].offset.value <= markers[from].offset.value
      {
        assert markers[j].offset.value <= markers[from - 1].offset.value;
      }
      assert Ahead(markers, from + 1, published);
      NeverDecreasing(markers, from + 1);
    }
  }

  /**
   At every cut of a progressive stream, every marker that lies in audio already published was
   emitted before the cut.
   */
  lemma {:induction false} MarkersBeforeAudio(t: seq<Frame>, cut: nat, k: nat, request: Request)
    requires Lawful(t, request) && request.progressive
    requires cut <= |t| && k < |AllMarkers(t)| && AllMarkers(t)[k].offset.Number?
    requires AllMarkers(t)[k].offset.value < Published(t[..cut])
    ensures k < |AllMarkers(t[..cut])|
    decreases |t|
  {
    if cut == |t| {
      assert t[..cut] == t;
    } else {
      var front := t[..|t| - 1];
      LastMayFollow(t, request);
      assert front[..cut] == t[..cut];
      PublishedGrows(front, cut, request);
      forall q | |AllMarkers(front)| <= q < |AllMarkers(t)|
        ensures AllMarkers(t)[q].offset.Number? && AllMarkers(t)[q].offset.value >= Published(t[..cut])
      {
        assert InOrder(AllMarkers(t), q, Published(front));
      }
      assert AllMarkers(front)[k] == AllMarkers(t)[k];
      MarkersBeforeAudio(front, cut, k, request);
    }
  }

  /** The stream starts at `s` only, and every chunk comes later. */
  ghost predicate OnlyStart(t: seq<Frame>, s: nat) {
    && s < |t| && t[s].Started?
    && (forall r :: 0 <= r < |t| && t[r].Started? ==> r == s)
    && (forall c :: 0 <= c < |t| && t[c].Chunk? ==> s < c)
  }

  /** Everything an accepted stream is known to satisfy. */
  lemma AcceptedStream(frames: seq<Frame>, request: Request, n: nat)
    requires Accepted(frames, request, n)
    ensures var t := frames[..n];
            && (exists s :: OnlyStart(t, s))
            && (forall c :: 0 <= c < n && t[c].Chunk? ==> t[c].sequence == ChunkCount(t[..c]))
            && AudioBytes(t) == frames[n].frameCount * Channels(t) * 2
    ensures request.progressive ==>
              var markers := AllMarkers(frames[..n]);
              forall j, k :: 0 <= j <= k < |markers| ==>
                && markers[j].offset.Number? && markers[k].offset.Number?
                && 0 <= markers[j].offset.value <= markers[k].offset.value <= frames[n].frameCount
  {
    var t := frames[..n];
    ChannelsMeansStart(t, request);
    var s :| 0 <= s < n && t[s].Started?;
    StartsOnce(t, request, s);
    assert OnlyStart(t, s);
    ChunksNumbered(t, request);
    WholeFrames(t, request);
    forall m | m in AllMarkers(t)
      ensures MarkerInRange(m, frames[n].frameCount, request.textSize)
    {
    }
    if request.progressive {
      OffsetsMonotonic(t, request);
      assert forall k :: 0 <= k < |AllMarkers(t)| ==> AllMarkers(t)[k] in AllMarkers(t);
    }
  }

  // ---------------------------------------------------------------- the monitor

  /** The loop's local variables. */
  datatype Progress = Progress(started: bool, channels: int, nextSequence: nat, audioBytes: nat,
                               markers: seq<Marker>, lastOffset: Option<int>)

  ghost predicate Reflects(p: Progress, t: seq<Frame>, request: Request) {
    && (p.started <==> Channels(t) > 0) && p.channels == Channels(t)
    && p.nextSequence == ChunkCount(t) && p.audioBytes == AudioBytes(t) && p.markers == AllMarkers(t)
    && (request.progressive ==> LastOffset(p.lastOffset, AllMarkers(t)))
  }

  ghost predicate LastOffset(offset: Option<int>, markers: seq<Marker>) {
    if markers == [] then offset == None
    else markers[|markers| - 1].offset.Number? && offset == Some(markers[|markers| - 1].offset.value)
  }

  /** The loop over a progressive batch. */
  method CheckBatch(values: seq<Marker>, published: int, before: seq<Marker>, last: Option<int>)
    returns (r: Result<Option<int>, Error>)
    requires LastOffset(last, before)
    ensures r.Success? <==> Ahead(before + values, |before|, published)
    ensures r.Success? ==> LastOffset(r.value, before + values)
  {
    var offset := last;
    for i := 0 to |values|
      invariant Ahead(before + values[..i], |before|, published)
      invariant LastOffset(offset, before + values[..i])
    {
      var field := values[i].offset;
      assert before + values[..i + 1] == before + values[..i] + [values[i]];
      AheadPrefix(before + values[..i], values[i], before + values, |before|, published);
      if !field.Number? || field.value < published { return Failure(MarkerBehindAudio); }
      if offset.Some? && field.value < offset.value { return Failure(MarkersNotMonotonic); }
      offset := Some(field.value);
    }
    assert values[..|values|] == values;
    return Success(offset);
  }

  lemma AheadPrefix(seen: seq<Marker>, m: Marker, all: seq<Marker>, from: nat, published: int)
    requires from <= |seen| && seen + [m] <= all && Ahead(seen, from, published)
    ensures Ahead(seen + [m], from, published) <==>
            && m.offset.Number? && m.offset.value >= published
            && (seen != [] ==> seen[|seen| - 1].offset.Number? && seen[|seen| - 1].offset.value <= m.offset.value)
    ensures Ahead(all, from, published) ==> Ahead(seen + [m], from, published)
  {
    var next := seen + [m];
    assert InOrder(next, |seen|, published) <==>
           && m.offset.Number? && m.offset.value >= published
           && (seen != [] ==> seen[|seen| - 1].offset.Number? && seen[|seen| - 1].offset.value <= m.offset.value);
    forall k | from <= k < |seen|
      ensures InOrder(next, k, published)
    {
      assert InOrder(seen, k, published);
    }
    if Ahead(all, from, published) {
      assert InOrder(all, |seen|, published);
      assert all[|seen|] == m && (seen != [] ==> all[|seen| - 1] == seen[|seen| - 1]);
    }
  }

  /** The body of the loop, for every frame but a completion. */
  method Observe(p: Progress, f: Frame, request: Request, ghost t: seq<Frame>) returns (r: Result<Progress, Error>)
    requires Lawful(t, request) && Reflects(p, t, request) && !f.Completed?
    ensures r.Success? <==> MayFollow(t, f, request)
    ensures r.Success? ==> Reflects(r.value, t + [f], request)
  {
    ChannelsMeansStart(t, request);
    assert (t + [f])[..|t|] == t;
    match f {
      case Started(rate, channels, format, voice) =>
        if p.started { return Failure(DuplicateStart); }
        if rate <= 0 || (channels != 1 && channels != 2) || format != "pcm_s16_le" { return Failure(InvalidFormat); }
        if voice != request.voice { return Failure(WrongVoice); }
        return Success(p.(started := true, channels := channels));
      case Chunk(sequence, size) =>
        if !p.started || sequence != p.nextSequence { return Failure(OutOfOrderChunk); }
        if size.None? { return Failure(InvalidPcm); }
        if size.value % (p.channels * 2) != 0 { return Failure(PartialFrame); }
        return Success(p.(audioBytes := p.audioBytes + size.value, nextSequence := p.nextSequence + 1));
      case Markers(values) =>
        if values == [] { return Failure(InvalidBatch); }
        if request.progressive {
          if !p.started { return Failure(NotStarted); }
          var checked := CheckBatch(values, p.audioBytes / (p.channels * 2), p.markers, p.lastOffset);
          if checked.Failure? { return Failure(checked.error); }
          return Success(p.(markers := p.markers + values, lastOffset := checked.value));
        }
        return Success(p.(markers := p.markers + values));
      case Other => return Failure(UnexpectedFrame);
    }
  }

  /** The checks made when the completion arrives. */
  method Close(markers: seq<Marker>, frameCount: int, request: Request) returns (failed: Option<Error>)
    ensures failed.None? <==> Closes(markers, frameCount, request)
  {
    for i := 0 to |markers|
      invariant forall j :: 0 <= j < i ==> MarkerInRange(markers[j], frameCount, request.textSize)
    {
      if !MarkerInRange(markers[i], frameCount, request.textSize) {
        assert markers[i] in markers;
        return Some(MarkerOutsideAudio);
      }
    }
    var kinds := set m | m in markers :: m.kind;
    if !(request.requiredKinds <= kinds) {
      return Some(MissingKind);
    }
    if request.resolutions.Some? {
      for i := 0 to |request.anchors|
        invariant forall j :: 0 <= j < i ==> Answered(markers, request.anchors[j], request.resolutions.value)
      {
        var resolved := FirstAnswer(markers, request.anchors[i]);
        if resolved.None? {
          assert request.anchors[i] in request.anchors;
          return Some(MissingAnchor);
        }
        if resolved.value.resolution !in request.resolutions.value {
          assert request.anchors[i] in request.anchors;
          return Some(InvalidResolution);
        }
      }
      if request.exactBounds && !Bounds(markers, request.anchors, frameCount) { return Some(WrongBounds); }
    }
    return None;
  }

  /** What the loop does with a completion. */
  method CheckCompletion(p: Progress, frameCount: int, request: Request, ghost t: seq<Frame>)
    returns (failed: Option<Error>)
    requires Lawful(t, request) && Reflects(p, t, request)
    ensures failed.None? <==>
            && Channels(t) > 0 && frameCount == Published(t) && frameCount > 0
            && Closes(AllMarkers(t), frameCount, request)
  {
    ChannelsMeansStart(t, request);
    if !p.started { return Some(NotStarted); }
    if frameCount != p.audioBytes / (p.channels * 2) || frameCount <= 0 { return Some(WrongTotal); }
    failed := Close(p.markers, frameCount, request);
  }

  const INITIAL := Progress(false, 0, 0, 0, [], None)

  lemma NothingObserved(request: Request)
    ensures Lawful([], request) && Reflects(INITIAL, [], request)
  {
  }

  lemma Totals(p: Progress, t: seq<Frame>, request: Request)
    requires Reflects(p, t, request)
    ensures p.markers == AllMarkers(t) && p.audioBytes == AudioBytes(t)
  {
  }

  /** The monitor accepts exactly the accepted streams, and reports their totals. */
  method Synthesize(frames: seq<Frame>, request: Request)
    returns (r: Result<(int, nat, nat), Error>, ghost n: nat)
    ensures r.Success? ==> Accepted(frames, request, n)
    ensures r.Failure? ==> forall k :: !Accepted(frames, request, k)
    ensures r.Success? ==>
              r.value == (frames[n].frameCount, |AllMarkers(frames[..n])|, AudioBytes(frames[..n]))
  {
    var p, i := INITIAL, 0;
    n := 0;
    NothingObserved(request);
    assert frames[..0] == [];
    hide Lawful, Reflects, AllMarkers, AudioBytes, Closes, Published, Channels;
    while i < |frames| && !frames[i].Completed?
      invariant i <= |frames| && Lawful(frames[..i], request) && Reflects(p, frames[..i], request)
      invariant forall k :: 0 <= k < i ==> !frames[k].Completed?
    {
      assert frames[..i + 1] == frames[..i] + [frames[i]];
      var next := Observe(p, frames[i], request, frames[..i]);
      if next.Failure? {
        UnlawfulRejected(frames, request, i);
        return Failure(next.error), 0;
      }
      LawfulLonger(frames[..i], frames[i], request);
      p := next.value;
      i := i + 1;
    }
    if i == |frames| { return Failure(TimedOut), 0; }
    OneCompletion(frames, request, i);
    var failed := CheckCompletion(p, frames[i].frameCount, request, frames[..i]);
    if failed.Some? { return Failure(failed.value), 0; }
    Totals(p, frames[..i], request);
    return Success((frames[i].frameCount, |p.markers|, p.audioBytes)), i;
  }

  lemma LawfulLonger(t: seq<Frame>, f: Frame, request: Request)
    requires Lawful(t, request) && MayFollow(t, f, request)
    ensures Lawful(t + [f], request)
  {
    var u := t + [f];
    forall i | 0 <= i < |u|
      ensures MayFollow(u[..i], u[i], request)
    {
      assert u[..i] == t[..i];
      if i == |t| { assert t[..i] == t; }
    }
  }

  /** An accepted stream completes only at its end. */
  lemma OneCompletion(frames: seq<Frame>, request: Request, i: nat)
    requires i < |frames| && frames[i].Completed? && forall k :: 0 <= k < i ==> !frames[k].Completed?
    ensures forall k :: Accepted(frames, request, k) ==> k == i
  {
    forall k: nat | i < k < |frames|
      ensures !Lawful(frames[..k], request)
    {
      assert frames[..k][i] == frames[i];
      assert !MayFollow(frames[..k][..i], frames[..k][i], request);
    }
  }

  lemma UnlawfulRejected(frames: seq<Frame>, request: Request, i: nat)
    requires i < |frames| && !MayFollow(frames[..i], frames[i], request)
    requires forall k :: 0 <= k <= i ==> !frames[k].Completed?
    ensures forall k :: !Accepted(frames, request, k)
  {
    forall k: nat | k < |frames| && frames[k].Completed?
      ensures !Lawful(frames[..k], request)
    {
      assert frames[..k][..i] == frames[..i] && frames[..k][i] == frames[i];
    }
  }
}

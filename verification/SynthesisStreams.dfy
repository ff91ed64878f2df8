/**
 The streams that synthesize of tools/stress_helper.py accepts, in terms of the fields of their frames and
 markers alone.
 */
module SynthesisStreams {
  import opened Wrappers
  import opened SynthesisMonitor

  // ---------------------------------------------------------------- what may follow

  /** A start follows a stream that has none, with a format the monitor knows and the voice asked for. */
  lemma StartExact(before: seq<Frame>, f: Frame, request: Request)
    requires Lawful(before, request) && f.Started?
    ensures MayFollow(before, f, request) <==>
            && (forall s :: s in before ==> !s.Started?)
            && f.sampleRate > 0 && (f.channels == 1 || f.channels == 2) && f.sampleFormat == "pcm_s16_le"
            && f.voice == request.voice
  {
    ChannelsMeansStart(before, request);
  }

  /** A chunk follows a start, with the number of the chunks before it and whole frames of the start's channels. */
  lemma ChunkExact(before: seq<Frame>, f: Frame, request: Request)
    requires Lawful(before, request) && f.Chunk?
    ensures MayFollow(before, f, request) <==>
            && f.size.Some? && f.sequence == |set k | 0 <= k < |before| && before[k].Chunk?|
            && exists s :: s in before && s.Started? && s.channels > 0 && f.size.value % (s.channels * 2) == 0
  {
    ChunksCounted(before);
    StartedChannels(before, request);
  }

  /** Offsets that are whole numbers, not behind the audio and not behind the offset before them. */
  ghost predicate InTime(before: seq<Marker>, values: seq<Marker>, published: int) {
    forall k :: 0 <= k < |values| ==>
      && values[k].offset.Number? && values[k].offset.value >= published
      && (k > 0 ==> values[k - 1].offset.Number? && values[k - 1].offset.value <= values[k].offset.value)
      && (k == 0 && before != [] ==>
            before[|before| - 1].offset.Number? && before[|before| - 1].offset.value <= values[k].offset.value)
  }

  /** A marker batch is not empty; in a progressive stream it follows a start, and its offsets are in time. */
  lemma MarkersExact(before: seq<Frame>, f: Frame, request: Request)
    requires Lawful(before, request) && f.Markers?
    ensures MayFollow(before, f, request) <==>
            && f.values != []
            && (request.progressive ==>
                  exists s :: s in before && s.Started? && s.channels > 0
                              && InTime(AllMarkers(before), f.values, AudioBytes(before) / (s.channels * 2)))
  {
    StartedChannels(before, request);
    hide AllMarkers, AudioBytes, Lawful, Ahead, Channels, InTime;
    if request.progressive && Channels(before) > 0 {
      AheadExact(AllMarkers(before), f.values, Published(before));
    }
  }

  /** Nothing else follows: a completion ends the loop, and a frame of another kind fails it. */
  lemma NothingElse(before: seq<Frame>, f: Frame, request: Request)
    ensures MayFollow(before, f, request) ==> f.Started? || f.Chunk? || f.Markers?
  {
  }

  /** The channels of a stream are those of every start in it, and it has some only with a start. */
  ghost predicate FromStarts(t: seq<Frame>) {
    && (forall s :: s in t && s.Started? ==> s.channels == Channels(t) > 0)
    && (Channels(t) > 0 ==> exists s :: s in t && s.Started?)
  }

  lemma FromStartsStep(t: seq<Frame>, f: Frame, request: Request)
    requires FromStarts(t) && 0 <= Channels(t) && MayFollow(t, f, request)
    ensures FromStarts(t + [f])
  {
    hide AudioBytes, AllMarkers, ChunkCount, Ahead, Published;
    TotalsStep(t, f);
    hide Channels;
    assert f in t + [f] && forall s :: s in t + [f] <==> s in t || s == f;
  }

  lemma {:induction false} StartedChannels(t: seq<Frame>, request: Request)
    requires Lawful(t, request)
    ensures FromStarts(t)
  {
    if t != [] {
      LastMayFollow(t, request);
      hide Lawful, MayFollow, FromStarts, Channels;
      ChannelsMeansStart(t[..|t| - 1], request);
      StartedChannels(t[..|t| - 1], request);
      FromStartsStep(t[..|t| - 1], t[|t| - 1], request);
      assert t[..|t| - 1] + [t[|t| - 1]] == t;
    }
  }

  lemma {:induction false} ChunksCounted(t: seq<Frame>)
    ensures ChunkCount(t) == |set k | 0 <= k < |t| && t[k].Chunk?|
  {
    var all := set k | 0 <= k < |t| && t[k].Chunk?;
    if t == [] {
      assert all == {};
    } else {
      var front, n := t[..|t| - 1], |t| - 1;
      var earlier := set k | 0 <= k < |front| && front[k].Chunk?;
      ChunksCounted(front);
      assert all == earlier + if t[n].Chunk? then {n} else {};
    }
  }

  lemma AheadExact(before: seq<Marker>, values: seq<Marker>, published: int)
    ensures Ahead(before + values, |before|, published) <==> InTime(before, values, published)
  {
    var all := before + values;
    assert forall k {:trigger values[k]} :: 0 <= k < |values| ==> all[|before| + k] == values[k];
    if Ahead(all, |before|, published) {
      forall k | 0 <= k < |values|
        ensures all[|before| + k] == values[k] && InOrder(all, |before| + k, published)
      {
      }
    }
  }

  // ---------------------------------------------------------------- what closes a stream

  /** The markers of a stream are those of its batches. */
  lemma {:induction false} BatchedMarkers(t: seq<Frame>, m: Marker)
    ensures m in AllMarkers(t) <==> exists q :: 0 <= q < |t| && t[q].Markers? && m in t[q].values
  {
    if t != [] {
      var front := t[..|t| - 1];
      BatchedMarkers(front, m);
      if q :| 0 <= q < |front| && front[q].Markers? && m in front[q].values {
        assert t[q].Markers? && m in t[q].values;
      }
      if q :| 0 <= q < |t| && t[q].Markers? && m in t[q].values {
        assert q < |front| ==> front[q] == t[q];
      }
    }
  }

  /** In an accepted stream every marker lies in the audio, and its range, if it has one, in the text. */
  lemma AcceptedMarkers(frames: seq<Frame>, request: Request, n: nat, q: nat, m: Marker)
    requires Accepted(frames, request, n) && q < n && frames[q].Markers? && m in frames[q].values
    ensures m.offset.Number? && 0 <= m.offset.value <= frames[n].frameCount
    ensures || (m.textStart.Missing? && m.textLength.Missing?)
            || (&& m.textStart.Number? && m.textLength.Number?
                && m.textStart.value >= 0 && m.textLength.value >= 0
                && m.textStart.value + m.textLength.value <= request.textSize)
  {
    assert frames[..n][q] == frames[q];
    BatchedMarkers(frames[..n], m);
    assert MarkerInRange(m, frames[n].frameCount, request.textSize);
  }

  /** Where no kinds and no anchors are asked for, such markers and the right total are all a lawful stream needs. */
  lemma PlainStream(frames: seq<Frame>, request: Request, n: nat, s: nat)
    requires n < |frames| && Lawful(frames[..n], request) && s < n && frames[s].Started? && frames[n].Completed?
    requires frames[n].frameCount > 0 && AudioBytes(frames[..n]) == frames[n].frameCount * (frames[s].channels * 2)
    requires request.requiredKinds == {} && request.resolutions.None?
    requires forall q, m :: 0 <= q < n && frames[q].Markers? && m in frames[q].values ==>
               && m.offset.Number? && 0 <= m.offset.value <= frames[n].frameCount
               && ((m.textStart.Missing? && m.textLength.Missing?)
                   || (&& m.textStart.Number? && m.textLength.Number?
                       && m.textStart.value >= 0 && m.textLength.value >= 0
                       && m.textStart.value + m.textLength.value <= request.textSize))
    ensures Accepted(frames, request, n)
  {
    var t := frames[..n];
    RightTotal(t, request, frames[s], frames[n].frameCount);
    forall m | m in AllMarkers(t)
      ensures MarkerInRange(m, frames[n].frameCount, request.textSize)
    {
      BatchedMarkers(t, m);
      var q :| 0 <= q < n && t[q].Markers? && m in t[q].values;
      assert frames[q].Markers? && m in frames[q].values;
    }
  }

  /** The frames the completion counts are right exactly when they fill the bytes. */
  lemma RightTotal(t: seq<Frame>, request: Request, start: Frame, frameCount: int)
    requires Lawful(t, request) && start in t && start.Started?
    ensures Channels(t) == start.channels > 0
    ensures frameCount == Published(t) <==> AudioBytes(t) == frameCount * (start.channels * 2)
  {
    StartedChannels(t, request);
    ChannelsMeansStart(t, request);
    WholeFrames(t, request);
    Filled(AudioBytes(t), frameCount, start.channels);
  }

  lemma Filled(bytes: nat, frameCount: int, channels: int)
    requires 1 <= channels <= 2 && bytes % (channels * 2) == 0
    ensures frameCount == bytes / (channels * 2) <==> bytes == frameCount * (channels * 2)
  {
    if channels == 1 {
      assert bytes / 2 * 2 == bytes;
    } else {
      assert bytes / 4 * 4 == bytes;
    }
  }

  /** The place of the first marker that answers an anchor. */
  ghost predicate FirstAt(markers: seq<Marker>, k: int, anchor: string) {
    && 0 <= k < |markers| && markers[k].kind == "requested_anchor" && markers[k].value == anchor
    && forall j :: 0 <= j < k ==> markers[j].kind != "requested_anchor" || markers[j].value != anchor
  }

  lemma {:induction false} FirstAnswerPlace(markers: seq<Marker>, anchor: string)
    ensures FirstAnswer(markers, anchor).Some? <==> exists k :: FirstAt(markers, k, anchor)
    ensures forall k :: FirstAt(markers, k, anchor) ==> FirstAnswer(markers, anchor) == Some(markers[k])
  {
    if markers != [] && !Resolves(markers[0], anchor) {
      FirstAnswerPlace(markers[1..], anchor);
      forall k | FirstAt(markers, k, anchor)
        ensures k > 0 && FirstAt(markers[1..], k - 1, anchor)
      {
        assert forall j :: 0 <= j < k - 1 ==> markers[1..][j] == markers[j + 1];
      }
      if k :| FirstAt(markers[1..], k, anchor) {
        assert forall j :: 0 < j <= k ==> markers[j] == markers[1..][j - 1];
        assert FirstAt(markers, k + 1, anchor);
      }
    } else if markers != [] {
      assert FirstAt(markers, 0, anchor);
    }
  }

  /** The closing checks on the markers: their ranges, the kinds, and the first answers to the anchors. */
  lemma ClosesExact(markers: seq<Marker>, frameCount: int, request: Request)
    ensures Closes(markers, frameCount, request) <==>
            && (forall m :: m in markers ==>
                  && m.offset.Number? && 0 <= m.offset.value <= frameCount
                  && ((m.textStart.Missing? && m.textLength.Missing?)
                      || (&& m.textStart.Number? && m.textLength.Number?
                          && m.textStart.value >= 0 && m.textLength.value >= 0
                          && m.textStart.value + m.textLength.value <= request.textSize)))
            && (forall kind :: kind in request.requiredKinds ==> exists m :: m in markers && m.kind == kind)
            && (request.resolutions.Some? ==>
                  forall a :: a in request.anchors ==>
                    exists k :: FirstAt(markers, k, a) && markers[k].resolution in request.resolutions.value)
            && (request.resolutions.Some? && request.exactBounds ==>
                  && |request.anchors| == 3
                  && (exists k :: FirstAt(markers, k, request.anchors[0]) && markers[k].offset == Number(0))
                  && (exists k :: FirstAt(markers, k, request.anchors[1])
                                  && markers[k].offset.Number? && 0 < markers[k].offset.value < frameCount)
                  && exists k :: FirstAt(markers, k, request.anchors[2]) && markers[k].offset == Number(frameCount))
  {
    forall a | a in request.anchors
      ensures FirstAnswer(markers, a).Some? <==> exists k :: FirstAt(markers, k, a)
      ensures forall k :: FirstAt(markers, k, a) ==> FirstAnswer(markers, a) == Some(markers[k])
    {
      FirstAnswerPlace(markers, a);
    }
    hide FirstAt, FirstAnswer;
  }
}

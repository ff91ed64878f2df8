/**
 Linear resampling of interleaved samples: resampleToRate of tools/tts_reference.swift, over exact numbers
 where the original rounds to Double and Float.
 */
module Resampler {

  import opened Arithmetic

  // ---------------------------------------------------------------- the specification

  /** Whole frames; a partial one at the end is dropped. */
  function Frames(samples: seq<real>, channels: nat): (frames: nat)
    requires channels > 0
    ensures frames * channels <= |samples|
  {
    |samples| / channels
  }

  function Input(samples: seq<real>, channels: nat, frame: nat, channel: nat): real
    requires channel < channels && frame < Frames(samples, channels)
  {
    FrameBound(frame, channel, Frames(samples, channels), channels);
    samples[frame * channels + channel]
  }

  function OutputFrames(frames: nat, target: nat, source: nat): nat
    requires source > 0
  {
    frames * target / source
  }

  /** The source frame at or before output frame `i`, and the share of the next one. */
  function SourceIndex(i: nat, target: nat, source: nat): nat
    requires target > 0
  {
    i * source / target
  }

  function Share(i: nat, target: nat, source: nat): (share: real)
    requires target > 0
    ensures 0.0 <= share < 1.0
  {
    (i * source % target) as real / target as real
  }

  /** One output sample: zero where the source frame lies outside the input. */
  function Sample(samples: seq<real>, channels: nat, target: nat, source: nat, i: nat, channel: nat): real
    requires channel < channels && target > 0
  {
    var (index, share) := (SourceIndex(i, target, source), Share(i, target, source));
    if index + 1 < Frames(samples, channels) then
      Input(samples, channels, index, channel) * (1.0 - share) + Input(samples, channels, index + 1, channel) * share
    else if index < Frames(samples, channels) then Input(samples, channels, index, channel)
    else 0.0
  }

  /** The interleaved result; equal rates leave the samples alone, a partial frame included. */
  function Resampled(samples: seq<real>, channels: nat, target: nat, source: nat): seq<real>
    requires channels > 0 && source > 0
  {
    if source == target then samples
    else
      var frames := OutputFrames(Frames(samples, channels), target, source);
      seq(frames * channels, k requires 0 <= k < frames * channels =>
        (assert k / channels < frames by { FrameOf(k, frames, channels); }
         Sample(samples, channels, target, source, k / channels, k % channels)))
  }

  lemma FrameOf(k: nat, frames: nat, channels: nat)
    requires channels > 0 && k < frames * channels
    ensures k / channels < frames && k % channels < channels
  {
    assert k == (k / channels) * channels + k % channels;
    Multiple(frames, k / channels, channels);
  }

  // ---------------------------------------------------------------- the loops

  /** The loops that take the channels apart. */
  method Deinterleave(samples: seq<real>, channels: nat) returns (data: array2<real>)
    requires channels > 0
    ensures fresh(data) && data.Length0 == channels && data.Length1 == Frames(samples, channels)
    ensures forall c, f :: 0 <= c < channels && 0 <= f < Frames(samples, channels) ==>
              data[c, f] == Input(samples, channels, f, c)
  {
    var frames := Frames(samples, channels);
    data := new real[channels, frames]((_, _) => 0.0);
    for f := 0 to frames
      invariant forall c, g :: 0 <= c < channels && 0 <= g < f ==> data[c, g] == Input(samples, channels, g, c)
    {
      for c := 0 to channels
        invariant forall d, g :: 0 <= d < channels && 0 <= g < f ==> data[d, g] == Input(samples, channels, g, d)
        invariant forall d :: 0 <= d < c ==> data[d, f] == Input(samples, channels, f, d)
      {
        FrameBound(f, c, frames, channels);
        data[c, f] := samples[f * channels + c];
      }
    }
  }

  /** The interpolation of every channel. */
  method Interpolate(data: array2<real>, samples: seq<real>, channels: nat, target: nat, source: nat, frames: nat)
    returns (output: array2<real>)
    requires channels > 0 && source > 0 && data.Length0 == channels && data.Length1 == Frames(samples, channels)
    requires frames > 0 ==> target > 0
    requires forall c, f :: 0 <= c < channels && 0 <= f < Frames(samples, channels) ==>
               data[c, f] == Input(samples, channels, f, c)
    ensures fresh(output) && output.Length0 == channels && output.Length1 == frames
    ensures forall c, i :: 0 <= c < channels && 0 <= i < frames ==>
              output[c, i] == Sample(samples, channels, target, source, i, c)
  {
    var count := Frames(samples, channels);
    output := new real[channels, frames]((_, _) => 0.0);
    for c := 0 to channels
      invariant forall d, i :: 0 <= d < c && 0 <= i < frames ==>
                  output[d, i] == Sample(samples, channels, target, source, i, d)
      invariant forall d, i :: c <= d < channels && 0 <= i < frames ==> output[d, i] == 0.0
    {
      for i := 0 to frames
        invariant forall d, j :: 0 <= d < c && 0 <= j < frames ==>
                    output[d, j] == Sample(samples, channels, target, source, j, d)
        invariant forall j :: 0 <= j < i ==> output[c, j] == Sample(samples, channels, target, source, j, c)
        invariant forall j :: i <= j < frames ==> output[c, j] == 0.0
        invariant forall d, j :: c < d < channels && 0 <= j < frames ==> output[d, j] == 0.0
      {
        var index, share := SourceIndex(i, target, source), Share(i, target, source);
        if index + 1 < count {
          output[c, i] := data[c, index] * (1.0 - share) + data[c, index + 1] * share;
        } else if index < count {
          output[c, i] := data[c, index];
        }
      }
    }
  }

  /** The loops that put the channels back together. */
  method Interleave(data: array2<real>, channels: nat, frames: nat) returns (result: array<real>)
    requires channels > 0 && data.Length0 == channels && data.Length1 == frames
    ensures fresh(result) && result.Length == frames * channels
    ensures forall k :: 0 <= k < frames * channels ==>
              k / channels < frames && result[k] == data[k % channels, k / channels]
  {
    result := new real[frames * channels](_ => 0.0);
    for f := 0 to frames
      invariant f * channels <= result.Length && Placed(result, data, channels, frames, f * channels)
    {
      var start := f * channels;
      Multiple(f, frames, channels);
      InterleaveFrame(result, data, channels, frames, f, start);
      assert start + channels == (f + 1) * channels;
    }
  }

  method InterleaveFrame(result: array<real>, data: array2<real>, channels: nat, frames: nat, f: nat, start: nat)
    requires channels > 0 && data.Length0 == channels && data.Length1 == frames
    requires f < frames && start == f * channels && start + channels <= result.Length
    requires Placed(result, data, channels, frames, start)
    modifies result
    ensures Placed(result, data, channels, frames, start + channels)
  {
    for c := 0 to channels
      invariant Placed(result, data, channels, frames, start + c)
    {
      FrameIndex(f, c, channels);
      result[start + c] := data[c, f];
    }
  }

  /** The first `n` samples come from their channels. */
  ghost predicate Placed(result: array<real>, data: array2<real>, channels: nat, frames: nat, n: nat)
    requires channels > 0 && data.Length0 == channels && data.Length1 == frames && n <= result.Length
    reads result, data
  {
    forall k :: 0 <= k < n ==> k / channels < frames && result[k] == data[k % channels, k / channels]
  }

  lemma InterleavedIsResampled(result: seq<real>, samples: seq<real>, channels: nat, target: nat, source: nat,
                               frames: nat)
    requires channels > 0 && source > 0 && source != target && (frames > 0 ==> target > 0)
    requires frames == OutputFrames(Frames(samples, channels), target, source) && |result| == frames * channels
    requires forall k :: 0 <= k < |result| ==>
               frames > 0 && result[k] == Sample(samples, channels, target, source, k / channels, k % channels)
    ensures result == Resampled(samples, channels, target, source)
  {
  }

  method ResampleToRate(target: nat, samples: seq<real>, source: nat, channels: nat) returns (resampled: seq<real>)
    requires channels > 0 && source > 0
    ensures resampled == Resampled(samples, channels, target, source)
    ensures source == target ==> resampled == samples
  {
    hide Sample, Frames;
    if source == target { return samples; }
    var frames := OutputFrames(Frames(samples, channels), target, source);
    var input := Deinterleave(samples, channels);
    var output := Interpolate(input, samples, channels, target, source, frames);
    var result := Interleave(output, channels, frames);
    forall k | 0 <= k < frames * channels
      ensures result[k] == Sample(samples, channels, target, source, k / channels, k % channels)
    {
      FrameOf(k, frames, channels);
    }
    InterleavedIsResampled(result[..], samples, channels, target, source, frames);
    return result[..];
  }

  // ---------------------------------------------------------------- what the result means

  /** Every output frame has its source frame inside the input, so no zero is left over. */
  lemma SourceInside(i: nat, frames: nat, target: nat, source: nat)
    requires source > 0 && i < OutputFrames(frames, target, source)
    ensures target > 0 && SourceIndex(i, target, source) < frames
  {
    FloorBound(frames * target, source);
    Multiple(i, OutputFrames(frames, target, source), source);
    assert target > 0;
    FloorBound(i * source, target);
    Cancel(SourceIndex(i, target, source), frames, target);
  }

  predicate Between(a: real, x: real, b: real) {
    a <= x <= b || b <= x <= a
  }

  function Times(a: real, b: real): real {
    a * b
  }

  lemma Part(d: real, share: real)
    requires 0.0 <= d && 0.0 <= share <= 1.0
    ensures 0.0 <= Times(d, share) <= d
  {
    assert d - d * share == d * (1.0 - share);
  }

  lemma MixtureBetween(a: real, b: real, share: real)
    requires 0.0 <= share <= 1.0
    ensures Between(a, a * (1.0 - share) + b * share, b)
  {
    hide Times;
    Shifted(a, b, share);
    if a <= b {
      Part(b - a, share);
    } else {
      Part(a - b, share);
    }
  }

  lemma Shifted(a: real, b: real, share: real)
    ensures a * (1.0 - share) + b * share == a + Times(b - a, share)
    ensures Times(b - a, share) == -Times(a - b, share)
  {
  }

  lemma OutputAt(samples: seq<real>, channels: nat, target: nat, source: nat, i: nat, channel: nat)
    requires channels > 0 && source > 0 && source != target && channel < channels
    requires i < OutputFrames(Frames(samples, channels), target, source)
    ensures target > 0
    ensures Frames(Resampled(samples, channels, target, source), channels)
         == OutputFrames(Frames(samples, channels), target, source)
    ensures Input(Resampled(samples, channels, target, source), channels, i, channel)
         == Sample(samples, channels, target, source, i, channel)
  {
    var frames := OutputFrames(Frames(samples, channels), target, source);
    SourceInside(i, Frames(samples, channels), target, source);
    Exact(frames, channels);
    FrameIndex(i, channel, channels);
    FrameBound(i, channel, frames, channels);
  }

  /** The input frame after the given one, or that frame itself at the end. */
  function Next(frames: nat, index: nat): (next: nat)
    requires index < frames
    ensures index <= next < frames
  {
    if index + 1 < frames then index + 1 else index
  }

  lemma SampleBetween(samples: seq<real>, channels: nat, target: nat, source: nat, i: nat, channel: nat)
    requires channel < channels && target > 0 && SourceIndex(i, target, source) < Frames(samples, channels)
    ensures var (index, frames) := (SourceIndex(i, target, source), Frames(samples, channels));
            Between(Input(samples, channels, index, channel), Sample(samples, channels, target, source, i, channel),
                    Input(samples, channels, Next(frames, index), channel))
  {
    var index, share := SourceIndex(i, target, source), Share(i, target, source);
    if index + 1 < Frames(samples, channels) {
      MixtureBetween(Input(samples, channels, index, channel), Input(samples, channels, index + 1, channel), share);
    }
  }

  /**
   Every sample of the result comes from input frames of its own channel: it lies between the frame at or
   before its position and the next one, and equals the former where there is no next.
   */
  lemma SamplesBetweenNeighbours(samples: seq<real>, channels: nat, target: nat, source: nat, i: nat, channel: nat)
    requires channels > 0 && source > 0 && source != target && channel < channels
    requires i < OutputFrames(Frames(samples, channels), target, source)
    ensures target > 0 && Frames(Resampled(samples, channels, target, source), channels) > i
    ensures SourceIndex(i, target, source) < Frames(samples, channels)
    ensures var (index, frames) := (SourceIndex(i, target, source), Frames(samples, channels));
            Between(Input(samples, channels, index, channel),
                    Input(Resampled(samples, channels, target, source), channels, i, channel),
                    Input(samples, channels, Next(frames, index), channel))
  {
    OutputAt(samples, channels, target, source, i, channel);
    SourceInside(i, Frames(samples, channels), target, source);
    SampleBetween(samples, channels, target, source, i, channel);
  }

  lemma WholeAndShare(x: nat, target: nat)
    requires target > 0
    ensures (x / target) as real + (x % target) as real / target as real == x as real / target as real
  {
    var q, r := x / target, x % target;
    assert x == q * target + r;
    assert x as real == q as real * target as real + r as real;
    assert (q as real * target as real) / target as real == q as real;
  }

  /** The index and the share together are the exact position i * source / target. */
  lemma ExactPosition(i: nat, target: nat, source: nat)
    requires target > 0
    ensures SourceIndex(i, target, source) as real + Share(i, target, source) == (i * source) as real / target as real
  {
    WholeAndShare(i * source, target);
  }

  // Products and quotients of reals, each fact by itself.

  lemma Ratio(r: real, target: real)
    requires target > 0.0
    ensures r / target * target == r
  {
  }

  lemma Spread(a: real, b: real, share: real, target: real)
    ensures (a * (1.0 - share) + b * share) * target == a * (target - share * target) + b * (share * target)
  {
    assert (a * (1.0 - share)) * target == a * ((1.0 - share) * target);
    assert (1.0 - share) * target == target - share * target;
    assert (b * share) * target == b * (share * target);
  }

  /** The mixture of two samples, without the quotient. */
  lemma Mixed(a: real, b: real, r: real, target: real)
    requires target > 0.0
    ensures (a * (1.0 - r / target) + b * (r / target)) * target == a * (target - r) + b * r
  {
    Spread(a, b, r / target, target);
    Ratio(r, target);
  }

  /** The quotient and the remainder of a position. */
  lemma Divided(x: nat, target: nat, q: nat, r: nat)
    requires x == q * target + r && r < target
    ensures x / target == q && x % target == r
  {
    FrameIndex(q, r, target);
  }

  lemma FramesOut(samples: seq<real>, channels: nat, target: nat, source: nat)
    requires channels > 0 && source > 0 && source != target
    ensures Frames(Resampled(samples, channels, target, source), channels)
         == OutputFrames(Frames(samples, channels), target, source)
  {
    hide Sample;
    Exact(OutputFrames(Frames(samples, channels), target, source), channels);
  }

  /** There are as many output frames as fit into the duration of the input. */
  lemma OutputLength(samples: seq<real>, channels: nat, target: nat, source: nat, frames: nat)
    requires channels > 0 && source > 0 && source != target && frames * channels + |samples| % channels == |samples|
    ensures var n := Frames(Resampled(samples, channels, target, source), channels);
            && |Resampled(samples, channels, target, source)| == n * channels
            && n * source <= frames * target < n * source + source
  {
    Divided(|samples|, channels, frames, |samples| % channels);
    Exact(OutputFrames(frames, target, source), channels);
    FloorBound(frames * target, source);
  }

  /** One output sample around the input frames `q` and `q + 1`. */
  lemma SampleMixed(samples: seq<real>, channels: nat, target: nat, source: nat, i: nat, channel: nat, q: nat, r: nat)
    requires channel < channels && target > 0 && q < Frames(samples, channels)
    requires SourceIndex(i, target, source) == q && i * source % target == r
    ensures var sample := Sample(samples, channels, target, source, i, channel);
            && (q + 1 < Frames(samples, channels) ==>
                  sample * target as real == Input(samples, channels, q, channel) * (target as real - r as real)
                                             + Input(samples, channels, q + 1, channel) * r as real)
            && (q + 1 == Frames(samples, channels) ==> sample == Input(samples, channels, q, channel))
  {
    hide Input, Frames;
    if q + 1 < Frames(samples, channels) {
      Mixed(Input(samples, channels, q, channel), Input(samples, channels, q + 1, channel), r as real, target as real);
    }
  }

  /**
   Every output sample is the linear interpolation of the two input frames of its channel around its position
   i * source / target, in whole numbers: the remainder weighs the next frame, what it lacks the first.
   */
  lemma Interpolated(samples: seq<real>, channels: nat, target: nat, source: nat, i: nat, channel: nat, q: nat, r: nat)
    requires channels > 0 && source > 0 && source != target && channel < channels
    requires i < Frames(Resampled(samples, channels, target, source), channels)
    requires i * source == q * target + r && r < target
    ensures q < Frames(samples, channels)
    ensures var sample := Input(Resampled(samples, channels, target, source), channels, i, channel);
            && (q + 1 < Frames(samples, channels) ==>
                  sample * target as real == Input(samples, channels, q, channel) * (target as real - r as real)
                                             + Input(samples, channels, q + 1, channel) * r as real)
            && (q + 1 == Frames(samples, channels) ==> sample == Input(samples, channels, q, channel))
  {
    hide Input, Sample, Resampled, Frames, OutputFrames;
    FramesOut(samples, channels, target, source);
    Divided(i * source, target, q, r);
    SourceInside(i, Frames(samples, channels), target, source);
    OutputAt(samples, channels, target, source, i, channel);
    SampleMixed(samples, channels, target, source, i, channel, q, r);
  }

  /** A channel that is affine in the frame number. */
  ghost predicate Affine(samples: seq<real>, channels: nat, channel: nat, slope: real, start: real)
    requires channel < channels
  {
    forall f: nat :: f < Frames(samples, channels) ==> Input(samples, channels, f, channel) == slope * f as real + start
  }

  /** It stays affine in the position, at every output frame whose next source frame exists. */
  lemma AffineStays(samples: seq<real>, channels: nat, target: nat, source: nat, i: nat, channel: nat,
                    q: nat, r: nat, slope: real, start: real)
    requires channels > 0 && source > 0 && source != target && channel < channels
    requires i < Frames(Resampled(samples, channels, target, source), channels)
    requires i * source == q * target + r && r < target && q + 1 < Frames(samples, channels)
    requires Affine(samples, channels, channel, slope, start)
    ensures Input(Resampled(samples, channels, target, source), channels, i, channel)
         == slope * ((i * source) as real / target as real) + start
  {
    hide Input, Sample, Resampled, Frames, OutputFrames;
    var sample := Input(Resampled(samples, channels, target, source), channels, i, channel);
    Interpolated(samples, channels, target, source, i, channel, q, r);
    RealPosition(i * source, q, target, r);
    OnTheLine(sample, slope, start, q as real, r as real, target as real, (i * source) as real);
  }

  lemma RealPosition(x: nat, q: nat, target: nat, r: nat)
    requires x == q * target + r
    ensures x as real == q as real * target as real + r as real
  {
  }

  lemma OnTheLine(sample: real, slope: real, start: real, q: real, r: real, target: real, position: real)
    requires target > 0.0 && position == q * target + r
    requires sample * target == (slope * q + start) * (target - r) + (slope * (q + 1.0) + start) * r
    ensures sample == slope * (position / target) + start
  {
  }

  lemma UpFrames(frames: nat, source: nat, m: nat)
    requires source > 0
    ensures OutputFrames(frames, m * source, source) == frames * m
  {
    Regroup(frames, m, source);
    Exact(frames * m, source);
  }

  lemma DownFrames(frames: nat, source: nat, m: nat)
    requires source > 0 && m > 0
    ensures m * source > 0 && OutputFrames(frames * m, source, m * source) == frames
  {
    Regroup(frames, m, source);
    Multiple(0, m, source);
    Exact(frames, m * source);
  }

  /** Where the position is a whole frame, the sample is that frame's. */
  lemma WholePosition(samples: seq<real>, channels: nat, target: nat, source: nat, i: nat, frame: nat, channel: nat)
    requires channel < channels && target > 0 && i * source == frame * target && frame < Frames(samples, channels)
    ensures Sample(samples, channels, target, source, i, channel) == Input(samples, channels, frame, channel)
  {
    Exact(frame, target);
  }

  /** At a multiple of m the upsampled signal is the input frame itself. */
  lemma UpAtMultiple(samples: seq<real>, channels: nat, source: nat, m: nat, f: nat, channel: nat)
    requires channel < channels && source > 0 && m > 0 && f < Frames(samples, channels)
    ensures m * source > 0
    ensures Sample(samples, channels, m * source, source, f * m, channel) == Input(samples, channels, f, channel)
  {
    Multiple(0, m, source);
    Regroup(f, m, source);
    WholePosition(samples, channels, m * source, source, f * m, f, channel);
  }

  lemma DownSample(up: seq<real>, channels: nat, source: nat, m: nat, f: nat, channel: nat)
    requires channel < channels && source > 0 && m > 0 && f * m < Frames(up, channels)
    ensures Sample(up, channels, source, m * source, f, channel) == Input(up, channels, f * m, channel)
  {
    Regroup(f, m, source);
    WholePosition(up, channels, source, m * source, f, f * m, channel);
  }

  /** Resampling to m times the rate and back returns the samples, a partial last frame dropped. */
  lemma UpAndBack(samples: seq<real>, channels: nat, source: nat, m: nat)
    requires channels > 0 && source > 0 && m > 1
    ensures m * source > 0
    ensures Resampled(Resampled(samples, channels, m * source, source), channels, source, m * source)
         == samples[..Frames(samples, channels) * channels]
  {
    var frames, fast := Frames(samples, channels), m * source;
    assert fast > source by { Multiple(1, m, source); }
    var up := Resampled(samples, channels, fast, source);
    UpFrames(frames, source, m);
    Exact(frames * m, channels);
    DownFrames(frames, source, m);
    var back := Resampled(up, channels, source, fast);
    assert |back| == frames * channels;
    forall k | 0 <= k < frames * channels
      ensures back[k] == samples[k]
    {
      BackAt(samples, channels, source, m, k);
    }
  }

  lemma BackAt(samples: seq<real>, channels: nat, source: nat, m: nat, k: nat)
    requires channels > 0 && source > 0 && m > 1 && k < Frames(samples, channels) * channels
    ensures m * source > source
    ensures var up := Resampled(samples, channels, m * source, source);
            && Frames(up, channels) == Frames(samples, channels) * m
            && Sample(up, channels, source, m * source, k / channels, k % channels) == samples[k]
  {
    Multiple(1, m, source);
    FrameOf(k, Frames(samples, channels), channels);
    BackFrame(samples, channels, source, m, k / channels, k % channels);
    hide Resampled, Sample, Frames;
    WholeFrame(k, channels);
  }

  lemma WholeFrame(k: nat, channels: nat)
    requires channels > 0
    ensures k / channels * channels + k % channels == k
  {
  }

  lemma BackFrame(samples: seq<real>, channels: nat, source: nat, m: nat, f: nat, channel: nat)
    requires channel < channels && source > 0 && m > 1 && f < Frames(samples, channels)
    ensures m * source > source
    ensures var up := Resampled(samples, channels, m * source, source);
            && Frames(up, channels) == Frames(samples, channels) * m
            && Sample(up, channels, source, m * source, f, channel) == Input(samples, channels, f, channel)
  {
    hide Resampled, Sample, Input, Frames;
    var frames, fast := Frames(samples, channels), m * source;
    Multiple(1, m, source);
    UpFrames(frames, source, m);
    FramesOut(samples, channels, fast, source);
    FrameBound(f, 0, frames, m);
    DownSample(Resampled(samples, channels, fast, source), channels, source, m, f, channel);
    OutputAt(samples, channels, fast, source, f * m, channel);
    UpAtMultiple(samples, channels, source, m, f, channel);
  }
}

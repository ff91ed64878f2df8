/** Products, quotients and the places of frames in interleaved data. */
module Arithmetic {

  lemma {:induction false} Multiple(a: nat, b: nat, n: nat)
    ensures a < b ==> a * n + n <= b * n
  {
    if a < b {
      assert b * n == (b - 1) * n + n;
      Multiple(a, b - 1, n);
    }
  }

  lemma Regroup(a: nat, b: nat, c: nat)
    ensures a * (b * c) == (a * b) * c
  {
  }

  lemma Cancel(a: nat, b: nat, n: nat)
    requires a * n < b * n
    ensures a < b
  {
    Multiple(b, a, n);
  }

  lemma FloorBound(x: nat, n: nat)
    requires n > 0
    ensures x / n * n <= x < x / n * n + n
  {
    assert x == x / n * n + x % n;
  }

  lemma FrameIndex(frame: nat, channel: nat, channels: nat)
    requires channel < channels
    ensures (frame * channels + channel) / channels == frame && (frame * channels + channel) % channels == channel
  {
    var k := frame * channels + channel;
    assert k == (k / channels) * channels + k % channels;
    Multiple(frame, k / channels, channels);
    Multiple(k / channels, frame, channels);
  }

  lemma FrameBound(frame: nat, channel: nat, frames: nat, channels: nat)
    requires frame < frames && channel < channels
    ensures frame * channels + channel < frames * channels
  {
    Multiple(frame, frames, channels);
  }

  lemma Exact(a: nat, b: nat)
    requires b > 0
    ensures a * b / b == a && a * b % b == 0
  {
    FrameIndex(a, 0, b);
  }
}

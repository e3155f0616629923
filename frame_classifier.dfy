/** Per-frame scoring and classification of 16-bit linear PCM audio
    (wait_for_silence_analyze_frame). Only the integer energy, the score and
    the three-way frame type are modelled; the RMS/decibel values are
    diagnostics that no decision reads. */
module FrameClassifier {

  /** A signed 16-bit PCM sample. */
  newtype int16 = x: int | -0x8000 <= x < 0x8000

  const U32_MAX: nat := 0xFFFF_FFFF

  /** Fixed score at or above which a frame that is not voiced is a bad frame. */
  const BAD_FRAME_SCORE: nat := 5000

  /** Scores are normalised to this reference rate (samples per second). */
  const REFERENCE_RATE: nat := 8000

  datatype FrameType = Silence | Voiced | BadFrame

  datatype FrameAnalysis = FrameAnalysis(frameType: FrameType, score: nat, energy: nat)

  /** |x| after promotion to int, so that |-32768| is 32768. */
  function Magnitude(x: int16): (m: nat)
    ensures m <= 0x8000
    ensures m == x as int || m == -(x as int)
  {
    if x < 0 then -(x as int) else x as int
  }

  /** The read cursor advances by this many positions per logical sample:
      one for the RMS sample, one for the energy sample, then `channels`. */
  function Stride(channels: nat): nat
  {
    2 + channels
  }

  /** The buffer holds every position the scoring loop reads for `samples`
      logical samples: position k * Stride + 1 for the last k. */
  predicate Fits(audio: seq<int16>, samples: nat, channels: nat)
  {
    samples == 0 || (samples - 1) * Stride(channels) + 1 < |audio|
  }

  lemma FitsPrefix(audio: seq<int16>, n: nat, m: nat, channels: nat)
    requires m <= n && Fits(audio, n, channels)
    ensures Fits(audio, m, channels)
  {
    if 0 < m {
      assert (m - 1) * Stride(channels) <= (n - 1) * Stride(channels);
    }
  }

  /** Reference definition of the energy: the sum, over the first `n` logical
      samples, of the magnitude of the sample at position k * Stride + 1. */
  function Energy(audio: seq<int16>, n: nat, channels: nat): nat
    requires Fits(audio, n, channels)
  {
    if n == 0 then 0
    else
      FitsPrefix(audio, n, n - 1, channels);
      Energy(audio, n - 1, channels) + Magnitude(audio[(n - 1) * Stride(channels) + 1])
  }

  /** One more logical sample adds the magnitude at the next stride
      position, and the cursor moves on by one stride. */
  lemma EnergyStep(audio: seq<int16>, samples: nat, n: nat, channels: nat)
    requires n < samples && Fits(audio, samples, channels)
    ensures n * Stride(channels) + 1 < |audio|
    ensures (n + 1) * Stride(channels) == n * Stride(channels) + Stride(channels)
    ensures Fits(audio, n + 1, channels) && Fits(audio, n, channels)
    ensures Energy(audio, n + 1, channels)
            == Energy(audio, n, channels) + Magnitude(audio[n * Stride(channels) + 1])
  {
    FitsPrefix(audio, samples, n + 1, channels);
  }

  /** The integer score: energy scaled by rate / 8000 (truncated) and
      divided by the number of samples (truncated). */
  function Score(energy: nat, rate: nat, samples: nat): nat
    requires 0 < samples
  {
    (energy * (rate / REFERENCE_RATE)) / samples
  }

  /** Reference classification: voiced at or above the threshold, whatever
      the score; otherwise bad at or above the fixed cutoff; otherwise silent. */
  function Classify(score: nat, threshold: nat): FrameType
  {
    if score >= threshold then Voiced
    else if score >= BAD_FRAME_SCORE then BadFrame
    else Silence
  }

  /** The frame type the classifier assigns to a non-empty frame. */
  function FrameTypeOf(audio: seq<int16>, samples: nat, channels: nat, rate: nat, threshold: nat): FrameType
    requires 0 < samples && Fits(audio, samples, channels)
  {
    Classify(Score(Energy(audio, samples, channels), rate, samples), threshold)
  }

  /** The scoring loop: walks the interleaved buffer, summing the magnitude of
      the second position of every stride, then scores and classifies. */
  method AnalyzeFrame(audio: seq<int16>, samples: nat, channels: nat, rate: nat, threshold: nat)
    returns (a: FrameAnalysis)
    requires 0 < samples && Fits(audio, samples, channels)
    ensures a.energy == Energy(audio, samples, channels)
    ensures a.score == Score(a.energy, rate, samples)
    ensures a.frameType == Classify(a.score, threshold)
    ensures a.frameType == FrameTypeOf(audio, samples, channels, rate, threshold)
  {
    var divisor := rate / REFERENCE_RATE;
    var energy: nat := 0;
    var j: nat := 0;
    var count: nat := 0;
    while count < samples
      invariant count <= samples
      invariant j == count * Stride(channels)
      invariant energy == Energy(audio, count, channels)
    {
      EnergyStep(audio, samples, count, channels);
      j := j + 1;  // the first position of the stride feeds only the RMS diagnostic
      energy := energy + Magnitude(audio[j]);
      j := j + 1;
      j := j + channels;
      count := count + 1;
    }
    MulMonotone(0, energy, divisor);
    var score: nat := (energy * divisor) / samples;
    var frameType := Silence;
    if score >= BAD_FRAME_SCORE {
      frameType := BadFrame;
    }
    if score >= threshold {
      frameType := Voiced;
    }
    a := FrameAnalysis(frameType, score, energy);
  }

  /** Each classification holds exactly when the score lies in its band:
      the threshold test overrides the bad-frame cutoff. */
  lemma ClassifyBands(score: nat, threshold: nat)
    ensures Classify(score, threshold) == Voiced <==> score >= threshold
    ensures Classify(score, threshold) == BadFrame <==> BAD_FRAME_SCORE <= score < threshold
    ensures Classify(score, threshold) == Silence <==> score < threshold && score < BAD_FRAME_SCORE
  {
  }

  /** Boundaries: a score equal to the threshold is voiced, one below it is
      silent or bad, and 5000 is bad only when the threshold lies above it. */
  lemma ThresholdBoundaries(threshold: nat)
    ensures Classify(threshold, threshold) == Voiced
    ensures 0 < threshold <= BAD_FRAME_SCORE ==> Classify(threshold - 1, threshold) == Silence
    ensures BAD_FRAME_SCORE < threshold ==> Classify(threshold - 1, threshold) == BadFrame
    ensures Classify(BAD_FRAME_SCORE, threshold) == BadFrame <==> BAD_FRAME_SCORE < threshold
  {
  }

  /** Every logical sample contributes at most 32768 to the energy. */
  lemma {:induction false} EnergyBound(audio: seq<int16>, n: nat, channels: nat)
    requires Fits(audio, n, channels)
    ensures Energy(audio, n, channels) <= n * 0x8000
  {
    if n > 0 {
      FitsPrefix(audio, n, n - 1, channels);
      EnergyBound(audio, n - 1, channels);
    }
  }

  /** The energy reads only the positions k * Stride + 1: two buffers that
      agree there have the same energy, whatever the other positions hold. */
  lemma {:induction false} EnergyReadsOnlyStridePositions(a: seq<int16>, b: seq<int16>, n: nat, channels: nat)
    requires Fits(a, n, channels) && Fits(b, n, channels)
    requires forall k :: 0 <= k < n ==> a[k * Stride(channels) + 1] == b[k * Stride(channels) + 1]
    ensures Energy(a, n, channels) == Energy(b, n, channels)
  {
    if n > 0 {
      FitsPrefix(a, n, n - 1, channels);
      FitsPrefix(b, n, n - 1, channels);
      EnergyReadsOnlyStridePositions(a, b, n - 1, channels);
      assert a[(n - 1) * Stride(channels) + 1] == b[(n - 1) * Stride(channels) + 1];
    }
  }

  /** The score never exceeds 32768 * (rate / 8000). */
  lemma ScoreBound(audio: seq<int16>, samples: nat, channels: nat, rate: nat)
    requires 0 < samples && Fits(audio, samples, channels)
    ensures Score(Energy(audio, samples, channels), rate, samples) <= 0x8000 * (rate / REFERENCE_RATE)
  {
    var e := Energy(audio, samples, channels);
    var d := rate / REFERENCE_RATE;
    EnergyBound(audio, samples, channels);
    MulMonotone(e, samples * 0x8000, d);
    assert samples * 0x8000 * d == (0x8000 * d) * samples;
    DivBelow(e * d, 0x8000 * d, samples);
  }

  lemma {:induction false} MulMonotone(a: nat, b: nat, c: nat)
    requires a <= b
    ensures a * c <= b * c
  {
    if c > 0 {
      MulMonotone(a, b, c - 1);
      assert a * c == a * (c - 1) + a;
      assert b * c == b * (c - 1) + b;
    }
  }

  lemma DivBelow(x: nat, q: nat, d: nat)
    requires 0 < d && x <= q * d
    ensures x / d <= q
  {
    var r := x / d;
    assert d * r + x % d == x;
    if r > q {
      MulMonotone(q + 1, r, d);
    }
  }

  /** Below 1,048,576,000 samples per second the score fits in 32 bits, so
      the conversion to the unsigned 32-bit score field is exact. */
  lemma ScoreFitsU32(audio: seq<int16>, samples: nat, channels: nat, rate: nat)
    requires 0 < samples && Fits(audio, samples, channels)
    requires rate < 131072 * REFERENCE_RATE
    ensures Score(Energy(audio, samples, channels), rate, samples) <= U32_MAX
  {
    ScoreBound(audio, samples, channels, rate);
  }

  /** Below 8000 samples per second the divisor truncates to 0: every frame
      scores 0 and is silent unless the threshold is 0. */
  lemma LowRateIsSilent(audio: seq<int16>, samples: nat, channels: nat, rate: nat, threshold: nat)
    requires 0 < samples && Fits(audio, samples, channels)
    requires rate < REFERENCE_RATE
    ensures Score(Energy(audio, samples, channels), rate, samples) == 0
    ensures FrameTypeOf(audio, samples, channels, rate, threshold) == (if threshold == 0 then Voiced else Silence)
  {
  }
}

/** The hysteresis and timeout state machine of wait_for_silence_callback,
    as pure functions over a snapshot of the per-stream wait_for_silence_t
    record. The class in module WaitForSilence updates the same record in
    place and is proved to follow these functions. */
module Hysteresis {
  import opened FrameClassifier

  const I32_MIN: int := -0x8000_0000
  const I32_MAX: int := 0x7FFF_FFFF

  datatype Option<T> = None | Some(value: T)

  /** The fields of the read codec that the detector uses. */
  datatype Codec = Codec(rate: nat, channels: nat, samplesPerPacket: nat)

  /** Per-stream settings, fixed when detection starts. */
  datatype Config = Config(silenceThreshold: nat, orgSilenceHits: nat, listenHits: nat, codec: Codec)

  /** The counters written to channel variables when the run times out. */
  datatype Diagnostics = Diagnostics(listening: nat, silenceHits: nat)

  /** The mutable part of the record, plus what the callback publishes:
      `timeoutVar` is the "wait_for_silence_timeout" channel variable,
      `diagnostics` the two counter variables written on timeout, and
      `events` the Silence-Detected value of every completion event fired. */
  datatype State = State(
    listening: nat,
    silenceHits: nat,
    sampleCount: int,
    complete: bool,
    silenceDetected: bool,
    timeoutVar: Option<bool>,
    diagnostics: Option<Diagnostics>,
    events: seq<bool>)

  /** One frame as handed to the callback: interleaved samples and the
      number of logical samples. */
  datatype Frame = Frame(audio: seq<int16>, samples: nat)

  /** One invocation of the media-bug callback. */
  datatype Tick = OtherCallback | ReadReplace(frame: Frame)

  /** The settings are unsigned 32-bit values and the packet size is stored
      in a signed 32-bit field. */
  predicate ConfigOk(c: Config)
  {
    && c.silenceThreshold <= U32_MAX
    && c.orgSilenceHits <= U32_MAX
    && c.listenHits <= U32_MAX
    && c.codec.rate <= U32_MAX
    && c.codec.samplesPerPacket <= I32_MAX
  }

  /** The timeout in samples, computed unsigned, must fit the signed
      32-bit budget field. */
  predicate StartOk(c: Config, timeoutMs: nat)
  {
    && ConfigOk(c)
    && timeoutMs <= U32_MAX
    && (c.codec.rate / 1000) * timeoutMs <= I32_MAX
  }

  predicate TickFits(t: Tick, channels: nat)
  {
    t.ReadReplace? ==> Fits(t.frame.audio, t.frame.samples, channels)
  }

  /** Unsigned 32-bit increment and decrement, wrapping around. */
  function Inc32(x: nat): (r: nat)
    requires x <= U32_MAX
    ensures r <= U32_MAX
  {
    if x == U32_MAX then 0 else x + 1
  }

  function Dec32(x: nat): (r: nat)
    requires x <= U32_MAX
    ensures r <= U32_MAX
  {
    if x == 0 then U32_MAX else x - 1
  }

  /** What holds of the record between callbacks: counters are in range;
      while pending nothing is published, the budget is non-negative and the
      countdown lies in [1, orgSilenceHits]; once complete exactly one event
      carries the outcome, and each outcome has its own published record. */
  ghost predicate Inv(c: Config, s: State)
  {
    && s.listening <= U32_MAX
    && s.silenceHits <= U32_MAX
    && I32_MIN <= s.sampleCount <= I32_MAX
    && (!s.complete ==>
          && 0 <= s.sampleCount
          && !s.silenceDetected
          && s.timeoutVar == None
          && s.diagnostics == None
          && s.events == [])
    && (!s.complete && 1 <= c.orgSilenceHits ==> 1 <= s.silenceHits <= c.orgSilenceHits)
    && (s.complete ==> s.events == [s.silenceDetected])
    && (s.complete && s.silenceDetected ==>
          s.silenceHits == 0 && s.timeoutVar == Some(false) && s.diagnostics == None)
    && (s.complete && !s.silenceDetected ==>
          && s.sampleCount <= 0
          && s.timeoutVar == Some(true)
          && s.diagnostics == Some(Diagnostics(s.listening, s.silenceHits)))
  }

  /** The record as wait_for_silence_start leaves it: the countdown at its
      configured value, the budget at (rate / 1000) * timeout samples, and the
      zero-filled allocation for everything else. */
  function Init(c: Config, timeoutMs: nat): (s: State)
    requires StartOk(c, timeoutMs)
    ensures Inv(c, s) && !s.complete
  {
    State(0, c.orgSilenceHits, (c.codec.rate / 1000) * timeoutMs, false, false, None, None, [])
  }

  /** The budget after a non-empty frame: a zero budget is never touched,
      any other drops by the nominal packet size. */
  function SpentBudget(c: Config, s: State): int
  {
    if s.sampleCount != 0 then s.sampleCount - c.codec.samplesPerPacket else s.sampleCount
  }

  /** This non-empty frame exhausts the budget. */
  predicate TimesOut(c: Config, s: State)
  {
    s.sampleCount != 0 && SpentBudget(c, s) <= 0
  }

  /** One non-empty frame of type `ft` delivered to a pending detector. */
  function Step(c: Config, s: State, ft: FrameType): (r: State)
    requires ConfigOk(c) && Inv(c, s) && !s.complete
    ensures Inv(c, r)
    ensures r.sampleCount == SpentBudget(c, s)
    ensures r.complete && !r.silenceDetected <==> TimesOut(c, s)
    ensures r.silenceDetected <==>
              !TimesOut(c, s) && ft == Silence && s.listening > c.listenHits && s.silenceHits == 1
    ensures TimesOut(c, s) ==> r.listening == s.listening && r.silenceHits == s.silenceHits
    ensures r.listening == if ft == Voiced && !TimesOut(c, s) then Inc32(s.listening) else s.listening
    ensures !r.complete ==>
              r.silenceHits == if ft == Silence && s.listening > c.listenHits then Dec32(s.silenceHits)
                               else c.orgSilenceHits
  {
    var budget := SpentBudget(c, s);
    if s.sampleCount != 0 && budget <= 0 then
      s.(sampleCount := budget,
         complete := true,
         timeoutVar := Some(true),
         diagnostics := Some(Diagnostics(s.listening, s.silenceHits)),
         events := s.events + [s.silenceDetected])
    else
      var listening := if ft == Voiced then Inc32(s.listening) else s.listening;
      if listening > c.listenHits && ft == Silence then
        var hits := Dec32(s.silenceHits);
        if hits == 0 then
          s.(sampleCount := budget,
             listening := listening,
             silenceHits := hits,
             silenceDetected := true,
             complete := true,
             timeoutVar := Some(false),
             events := s.events + [true])
        else
          s.(sampleCount := budget, listening := listening, silenceHits := hits)
      else
        s.(sampleCount := budget, listening := listening, silenceHits := c.orgSilenceHits)
  }

  /** A run of non-empty frames; frames after completion are not processed. */
  function Steps(c: Config, s: State, fts: seq<FrameType>): (r: State)
    requires ConfigOk(c) && Inv(c, s)
    ensures Inv(c, r)
    ensures s.complete ==> r == s
    ensures !r.complete ==> !s.complete
    decreases |fts|
  {
    if fts == [] || s.complete then s
    else Steps(c, Step(c, s, fts[0]), fts[1..])
  }

  /** The media-bug callback: other callback types are ignored, a completed
      detector asks to be removed, an empty frame is skipped, and any other
      frame is classified and stepped. The boolean is the return value:
      false asks the host to stop calling. */
  function Callback(c: Config, s: State, t: Tick): (r: (State, bool))
    requires ConfigOk(c) && Inv(c, s) && TickFits(t, c.codec.channels)
    ensures Inv(c, r.0)
    ensures t.OtherCallback? ==> r.1
    ensures t.ReadReplace? ==> (r.1 <==> !r.0.complete)
    ensures r.0.events == s.events || (!s.complete && r.0.complete && r.0.events == [r.0.silenceDetected])
  {
    match t
    case OtherCallback => (s, true)
    case ReadReplace(f) =>
      if s.complete then (s, false)
      else if f.samples == 0 then (s, true)
      else
        var ft := FrameTypeOf(f.audio, f.samples, c.codec.channels, c.codec.rate, c.silenceThreshold);
        var s' := Step(c, s, ft);
        (s', !s'.complete)
  }

  /** A sequence of callbacks, with the value each returned. */
  function RunCallbacks(c: Config, s: State, ts: seq<Tick>): (r: (State, seq<bool>))
    requires ConfigOk(c) && Inv(c, s)
    requires forall i :: 0 <= i < |ts| ==> TickFits(ts[i], c.codec.channels)
    ensures Inv(c, r.0)
    ensures |r.1| == |ts|
    ensures |r.0.events| <= 1
    decreases |ts|
  {
    if ts == [] then (s, [])
    else
      var (s', keep) := Callback(c, s, ts[0]);
      var rest := RunCallbacks(c, s', ts[1..]);
      (rest.0, [keep] + rest.1)
  }

  // ---------------------------------------------------------------------
  // Callbacks that change nothing

  /** A callback that leaves the record alone: another callback type, a
      detector already complete, or a frame with no samples. */
  predicate Ignored(s: State, t: Tick)
  {
    t.OtherCallback? || s.complete || t.frame.samples == 0
  }

  /** Ignored callbacks change no field, publish nothing and return false
      exactly for read-replace callbacks on a completed detector. */
  lemma {:induction false} IgnoredTicksChangeNothing(c: Config, s: State, ts: seq<Tick>)
    requires ConfigOk(c) && Inv(c, s)
    requires forall i :: 0 <= i < |ts| ==> TickFits(ts[i], c.codec.channels)
    requires forall i :: 0 <= i < |ts| ==> Ignored(s, ts[i])
    ensures RunCallbacks(c, s, ts).0 == s
    ensures forall i :: 0 <= i < |ts| ==>
              RunCallbacks(c, s, ts).1[i] == !(ts[i].ReadReplace? && s.complete)
  {
    if ts != [] {
      IgnoredTicksChangeNothing(c, s, ts[1..]);
      var rest := RunCallbacks(c, s, ts[1..]);
      assert RunCallbacks(c, s, ts).1 == [!(ts[0].ReadReplace? && s.complete)] + rest.1;
    }
  }

  /** Once complete, the detector stays exactly as it is: no later callback
      changes it or fires a second event, and every read-replace callback
      returns false. */
  lemma CompletionIsFinal(c: Config, s: State, ts: seq<Tick>)
    requires ConfigOk(c) && Inv(c, s) && s.complete
    requires forall i :: 0 <= i < |ts| ==> TickFits(ts[i], c.codec.channels)
    ensures RunCallbacks(c, s, ts).0 == s
    ensures |RunCallbacks(c, s, ts).0.events| == 1
    ensures forall i :: 0 <= i < |ts| ==> (RunCallbacks(c, s, ts).1[i] <==> ts[i].OtherCallback?)
  {
    IgnoredTicksChangeNothing(c, s, ts);
  }

  /** From the start of a run, whatever callbacks arrive, at most one
      completion event is fired, and it is fired exactly when the detector
      is complete, carrying its outcome. */
  lemma {:induction false} OneEventPerRun(c: Config, timeoutMs: nat, ts: seq<Tick>)
    requires StartOk(c, timeoutMs)
    requires forall i :: 0 <= i < |ts| ==> TickFits(ts[i], c.codec.channels)
    ensures var r := RunCallbacks(c, Init(c, timeoutMs), ts).0;
            (r.complete ==> r.events == [r.silenceDetected]) && (!r.complete ==> r.events == [])
  {
  }

  // ---------------------------------------------------------------------
  // Runs of non-empty frames

  /** Appending one frame to a run steps the run's final state, unless it is
      already complete. */
  lemma {:induction false} StepsSnoc(c: Config, s: State, fts: seq<FrameType>, ft: FrameType)
    requires ConfigOk(c) && Inv(c, s)
    ensures var m := Steps(c, s, fts);
            Steps(c, s, fts + [ft]) == if m.complete then m else Step(c, m, ft)
    decreases |fts|
  {
    if fts != [] && !s.complete {
      assert (fts + [ft])[1..] == fts[1..] + [ft];
      StepsSnoc(c, Step(c, s, fts[0]), fts[1..], ft);
    }
  }

  /** The number of Voiced frames in a run. */
  function CountVoiced(fts: seq<FrameType>): nat
  {
    if fts == [] then 0 else (if fts[0] == Voiced then 1 else 0) + CountVoiced(fts[1..])
  }

  /** The length of the run of Silence frames at the end of `fts`. */
  function TrailingSilence(fts: seq<FrameType>): nat
  {
    if fts == [] || fts[|fts| - 1] != Silence then 0
    else 1 + TrailingSilence(fts[..|fts| - 1])
  }

  lemma {:induction false} TrailingSilenceBound(fts: seq<FrameType>)
    ensures TrailingSilence(fts) <= |fts|
    ensures forall i :: |fts| - TrailingSilence(fts) <= i < |fts| ==> fts[i] == Silence
  {
    if fts != [] && fts[|fts| - 1] == Silence {
      var p := fts[..|fts| - 1];
      TrailingSilenceBound(p);
      assert forall i :: |p| - TrailingSilence(p) <= i < |p| ==> fts[i] == p[i];
    }
  }

  /** While processed frames arrive and no 32-bit wrap can happen, the voice
      counter grows by exactly the number of Voiced frames. */
  lemma {:induction false} ListeningCountsVoiced(c: Config, s: State, fts: seq<FrameType>)
    requires ConfigOk(c) && Inv(c, s)
    requires !Steps(c, s, fts).complete
    requires s.listening + |fts| <= U32_MAX
    ensures Steps(c, s, fts).listening == s.listening + CountVoiced(fts)
    decreases |fts|
  {
    if fts != [] {
      ListeningCountsVoiced(c, Step(c, s, fts[0]), fts[1..]);
    }
  }

  /** The countdown follows the trailing run of Silence frames: with the
      voice counter not past listenHits it is back at its configured value;
      otherwise it is the configured value less the run, or, when the whole
      run is silent, the starting countdown less the run. */
  lemma {:induction false} CountdownTracksSilenceRun(c: Config, s: State, fts: seq<FrameType>)
    requires ConfigOk(c) && Inv(c, s) && 1 <= c.orgSilenceHits
    requires fts != [] && !Steps(c, s, fts).complete
    ensures var r := Steps(c, s, fts);
            var t := TrailingSilence(fts);
            r.silenceHits ==
              if r.listening <= c.listenHits then c.orgSilenceHits
              else if t < |fts| then c.orgSilenceHits - t
              else s.silenceHits - t
    decreases |fts|
  {
    var p, ft := fts[..|fts| - 1], fts[|fts| - 1];
    assert fts == p + [ft];
    var m := Steps(c, s, p);
    assert !m.complete && Steps(c, s, fts) == Step(c, m, ft) by {
      StepsSnoc(c, s, p, ft);
    }
    var r := Steps(c, s, fts);
    if ft != Silence {
      assert TrailingSilence(fts) == 0;
      assert r.silenceHits == c.orgSilenceHits;
    } else if m.listening <= c.listenHits {
      assert r.listening == m.listening && r.silenceHits == c.orgSilenceHits;
    } else {
      assert TrailingSilence(fts) == 1 + TrailingSilence(p);
      assert r.listening == m.listening && r.silenceHits == m.silenceHits - 1;
      if p != [] {
        var t := TrailingSilence(p);
        assert m.silenceHits == if t < |p| then c.orgSilenceHits - t else s.silenceHits - t by {
          CountdownTracksSilenceRun(c, s, p);
        }
        TrailingSilenceBound(p);
      }
    }
  }

  /** Detection needs sustained silence: if the last frame of a run is the one
      that detects silence, then the voice counter is past listenHits and the
      run ends in orgSilenceHits Silence frames, or the whole run is silent and
      exactly as long as the countdown it started from. */
  lemma DetectionRequiresSilenceRun(c: Config, s: State, fts: seq<FrameType>)
    requires ConfigOk(c) && Inv(c, s) && 1 <= c.orgSilenceHits
    requires fts != [] && !Steps(c, s, fts[..|fts| - 1]).complete
    requires Steps(c, s, fts).silenceDetected
    ensures Steps(c, s, fts).listening > c.listenHits
    ensures TrailingSilence(fts) < |fts| ==> TrailingSilence(fts) == c.orgSilenceHits
    ensures TrailingSilence(fts) == |fts| ==> |fts| == s.silenceHits
  {
    var p, ft := fts[..|fts| - 1], fts[|fts| - 1];
    assert fts == p + [ft];
    var m := Steps(c, s, p);
    assert ft == Silence && m.listening > c.listenHits && m.silenceHits == 1
           && Steps(c, s, fts).listening == m.listening by {
      StepsSnoc(c, s, p, ft);
    }
    assert TrailingSilence(fts) == 1 + TrailingSilence(p);
    if p != [] {
      var t := TrailingSilence(p);
      assert m.silenceHits == if t < |p| then c.orgSilenceHits - t else s.silenceHits - t by {
        CountdownTracksSilenceRun(c, s, p);
      }
    }
  }

  /** From the start of a run: when silence is detected on the last frame,
      the last orgSilenceHits frames were all Silence. */
  lemma DetectionFromStart(c: Config, timeoutMs: nat, fts: seq<FrameType>)
    requires StartOk(c, timeoutMs) && 1 <= c.orgSilenceHits
    requires fts != [] && !Steps(c, Init(c, timeoutMs), fts[..|fts| - 1]).complete
    requires Steps(c, Init(c, timeoutMs), fts).silenceDetected
    ensures c.orgSilenceHits <= |fts|
    ensures forall i :: |fts| - c.orgSilenceHits <= i < |fts| ==> fts[i] == Silence
  {
    DetectionRequiresSilenceRun(c, Init(c, timeoutMs), fts);
    TrailingSilenceBound(fts);
  }

  /** From the start of a run: when silence is detected on the last frame,
      more than listenHits of the frames were Voiced. The bound on the run's
      length rules out a wrap of the voice counter, which would break the
      count. */
  lemma VoiceBeforeDetection(c: Config, timeoutMs: nat, fts: seq<FrameType>)
    requires StartOk(c, timeoutMs) && 1 <= c.orgSilenceHits
    requires |fts| <= U32_MAX
    requires fts != [] && !Steps(c, Init(c, timeoutMs), fts[..|fts| - 1]).complete
    requires Steps(c, Init(c, timeoutMs), fts).silenceDetected
    ensures CountVoiced(fts) > c.listenHits
  {
    var s := Init(c, timeoutMs);
    DetectionRequiresSilenceRun(c, s, fts);
    var p, ft := fts[..|fts| - 1], fts[|fts| - 1];
    assert fts == p + [ft];
    StepsSnoc(c, s, p, ft);
    ListeningCountsVoiced(c, s, p);
    CountVoicedSnoc(p, ft);
  }

  lemma {:induction false} CountVoicedSnoc(fts: seq<FrameType>, ft: FrameType)
    ensures CountVoiced(fts + [ft]) == CountVoiced(fts) + (if ft == Voiced then 1 else 0)
  {
    if fts != [] {
      assert (fts + [ft])[1..] == fts[1..] + [ft];
      CountVoicedSnoc(fts[1..], ft);
    }
  }

  /** Without enough voice the detector never detects silence: a run in which
      the voice counter cannot pass listenHits ends pending or timed out. */
  lemma {:induction false} NoPrimingNoDetection(c: Config, s: State, fts: seq<FrameType>)
    requires ConfigOk(c) && Inv(c, s) && !s.complete
    requires s.listening + CountVoiced(fts) <= c.listenHits
    ensures !Steps(c, s, fts).silenceDetected
    decreases |fts|
  {
    if fts != [] {
      var s' := Step(c, s, fts[0]);
      if !s'.complete {
        NoPrimingNoDetection(c, s', fts[1..]);
      }
    }
  }

  /** `n` frames of the same type. */
  function Repeat(ft: FrameType, n: nat): (fts: seq<FrameType>)
  {
    seq(n, _ => ft)
  }

  /** Sustained silence is enough: once the voice counter is past listenHits
      and the budget lasts, as many Silence frames as the countdown shows
      detect silence, on the last of them and not before. */
  lemma {:induction false} SustainedSilenceDetects(c: Config, s: State)
    requires ConfigOk(c) && Inv(c, s) && !s.complete && 1 <= c.orgSilenceHits
    requires s.listening > c.listenHits
    requires s.sampleCount == 0 || s.sampleCount > s.silenceHits * c.codec.samplesPerPacket
    ensures Steps(c, s, Repeat(Silence, s.silenceHits)).silenceDetected
    ensures !Steps(c, s, Repeat(Silence, s.silenceHits - 1)).complete
    ensures Steps(c, s, Repeat(Silence, s.silenceHits)).listening == s.listening
    decreases s.silenceHits
  {
    var h := s.silenceHits;
    var s' := Step(c, s, Silence);
    PrimedSilentStep(c, s);
    assert Steps(c, s, Repeat(Silence, h)) == Steps(c, s', Repeat(Silence, h - 1)) by {
      assert Repeat(Silence, h)[1..] == Repeat(Silence, h - 1);
    }
    if h > 1 {
      assert Steps(c, s, Repeat(Silence, h - 1)) == Steps(c, s', Repeat(Silence, h - 2)) by {
        assert Repeat(Silence, h - 1)[1..] == Repeat(Silence, h - 2);
      }
      SustainedSilenceDetects(c, s');
    }
  }

  /** One Silence frame on a primed detector with budget to spare counts the
      countdown down by one, detecting silence exactly when it reaches 0. */
  lemma PrimedSilentStep(c: Config, s: State)
    requires ConfigOk(c) && Inv(c, s) && !s.complete && 1 <= c.orgSilenceHits
    requires s.listening > c.listenHits
    requires s.sampleCount == 0 || s.sampleCount > s.silenceHits * c.codec.samplesPerPacket
    ensures var r := Step(c, s, Silence);
            && r.listening == s.listening
            && r.silenceHits == s.silenceHits - 1
            && r.silenceDetected == (s.silenceHits == 1)
            && (1 < s.silenceHits ==> !r.complete)
            && (r.sampleCount == 0 || r.sampleCount > r.silenceHits * c.codec.samplesPerPacket)
  {
    var spp := c.codec.samplesPerPacket;
    assert s.silenceHits * spp == (s.silenceHits - 1) * spp + spp;
  }

  /** A zero budget disables the timeout: it stays zero and a run can only
      complete by detecting silence. */
  lemma {:induction false} ZeroBudgetNeverTimesOut(c: Config, s: State, fts: seq<FrameType>)
    requires ConfigOk(c) && Inv(c, s) && !s.complete
    requires s.sampleCount == 0
    ensures Steps(c, s, fts).sampleCount == 0
    ensures Steps(c, s, fts).complete ==> Steps(c, s, fts).silenceDetected
    decreases |fts|
  {
    if fts != [] {
      var s' := Step(c, s, fts[0]);
      if !s'.complete {
        ZeroBudgetNeverTimesOut(c, s', fts[1..]);
      }
    }
  }

  /** The timeout guarantees completion: with a positive budget and packet
      size, any run of frames whose nominal sizes add up to the budget
      completes, whatever the frames hold. */
  lemma {:induction false} BudgetForcesCompletion(c: Config, s: State, fts: seq<FrameType>)
    requires ConfigOk(c) && Inv(c, s) && !s.complete
    requires 0 < c.codec.samplesPerPacket && 0 < s.sampleCount
    requires s.sampleCount <= |fts| * c.codec.samplesPerPacket
    ensures Steps(c, s, fts).complete
    decreases |fts|
  {
    var spp := c.codec.samplesPerPacket;
    var s' := Step(c, s, fts[0]);
    if !s'.complete {
      assert |fts| * spp == (|fts| - 1) * spp + spp;
      BudgetForcesCompletion(c, s', fts[1..]);
    }
  }

  // ---------------------------------------------------------------------
  // Callbacks as runs of frames

  /** The frame types of the callbacks that reach the classifier, in order:
      read-replace callbacks with a non-empty frame. */
  function Processed(c: Config, ts: seq<Tick>): (fts: seq<FrameType>)
    requires forall i :: 0 <= i < |ts| ==> TickFits(ts[i], c.codec.channels)
    ensures |fts| <= |ts|
  {
    if ts == [] then []
    else
      assert TickFits(ts[0], c.codec.channels);
      var rest := Processed(c, ts[1..]);
      match ts[0]
      case OtherCallback => rest
      case ReadReplace(f) =>
        if f.samples == 0 then rest
        else [FrameTypeOf(f.audio, f.samples, c.codec.channels, c.codec.rate, c.silenceThreshold)] + rest
  }

  /** A sequence of callbacks leaves the record exactly where the run of its
      processed frames leaves it: other callback types and empty frames,
      wherever they fall, neither advance nor reset the counters. */
  lemma {:induction false} RunIsSteps(c: Config, s: State, ts: seq<Tick>)
    requires ConfigOk(c) && Inv(c, s)
    requires forall i :: 0 <= i < |ts| ==> TickFits(ts[i], c.codec.channels)
    ensures RunCallbacks(c, s, ts).0 == Steps(c, s, Processed(c, ts))
    decreases |ts|
  {
    if ts != [] {
      if s.complete {
        CompletionIsFinal(c, s, ts);
      } else {
        assert TickFits(ts[0], c.codec.channels);
        var s' := Callback(c, s, ts[0]).0;
        RunIsSteps(c, s', ts[1..]);
      }
    }
  }

  /** The timeout seen through the callbacks: from start, once the nominal
      packet sizes of the processed frames add up to a positive budget, the
      detector is complete. */
  lemma CallbacksTimeOut(c: Config, timeoutMs: nat, ts: seq<Tick>)
    requires StartOk(c, timeoutMs) && 0 < c.codec.samplesPerPacket
    requires forall i :: 0 <= i < |ts| ==> TickFits(ts[i], c.codec.channels)
    requires 0 < Init(c, timeoutMs).sampleCount <= |Processed(c, ts)| * c.codec.samplesPerPacket
    ensures RunCallbacks(c, Init(c, timeoutMs), ts).0.complete
  {
    RunIsSteps(c, Init(c, timeoutMs), ts);
    BudgetForcesCompletion(c, Init(c, timeoutMs), Processed(c, ts));
  }

  /** Priming seen through the callbacks: from start, if no more than
      listenHits processed frames are Voiced, no callback detects silence. */
  lemma CallbacksNeedVoice(c: Config, timeoutMs: nat, ts: seq<Tick>)
    requires StartOk(c, timeoutMs)
    requires forall i :: 0 <= i < |ts| ==> TickFits(ts[i], c.codec.channels)
    requires CountVoiced(Processed(c, ts)) <= c.listenHits
    ensures !RunCallbacks(c, Init(c, timeoutMs), ts).0.silenceDetected
  {
    RunIsSteps(c, Init(c, timeoutMs), ts);
    NoPrimingNoDetection(c, Init(c, timeoutMs), Processed(c, ts));
  }

  // ---------------------------------------------------------------------
  // Worked runs

  lemma StepsCons(c: Config, s: State, ft: FrameType, rest: seq<FrameType>)
    requires ConfigOk(c) && Inv(c, s) && !s.complete
    ensures Steps(c, s, [ft] + rest) == Steps(c, Step(c, s, ft), rest)
  {
    assert ([ft] + rest)[1..] == rest;
  }

  /** listenHits 2, silence hits 3, no timeout: three Voiced then three
      Silence frames detect silence on the third Silence frame. */
  lemma SustainedSilenceExample(codec: Codec)
    requires codec.rate <= U32_MAX && codec.samplesPerPacket <= I32_MAX
    ensures var c := Config(256, 3, 2, codec);
            var s := Init(c, 0);
            && !Steps(c, s, [Voiced, Voiced, Voiced, Silence, Silence]).complete
            && Steps(c, s, [Voiced, Voiced, Voiced, Silence, Silence, Silence]).silenceDetected
            && Steps(c, s, [Voiced, Voiced, Voiced, Silence, Silence, Silence]).listening == 3
  {
    var c := Config(256, 3, 2, codec);
    var s0 := Init(c, 0);
    var s1 := Step(c, s0, Voiced);
    var s2 := Step(c, s1, Voiced);
    var s3 := Step(c, s2, Voiced);
    assert s3.listening == 3 && s3.silenceHits == 3 && s3.sampleCount == 0;
    var s4 := Step(c, s3, Silence);
    var s5 := Step(c, s4, Silence);
    assert s5.silenceHits == 1 && !s5.complete && s5.listening == 3;
    var s6 := Step(c, s5, Silence);
    assert s6.silenceDetected && s6.listening == 3;
    assert Steps(c, s5, [Silence]) == s6 by { StepsCons(c, s5, Silence, []); }
    assert Steps(c, s4, [Silence]) == s5 by { StepsCons(c, s4, Silence, []); }
    assert Steps(c, s4, [Silence, Silence]) == s6 by { StepsCons(c, s4, Silence, [Silence]); }
    assert Steps(c, s3, [Silence, Silence]) == s5 by { StepsCons(c, s3, Silence, [Silence]); }
    assert Steps(c, s3, [Silence, Silence, Silence]) == s6 by { StepsCons(c, s3, Silence, [Silence, Silence]); }
    assert Steps(c, s2, [Voiced, Silence, Silence]) == s5 by { StepsCons(c, s2, Voiced, [Silence, Silence]); }
    assert Steps(c, s2, [Voiced, Silence, Silence, Silence]) == s6 by {
      StepsCons(c, s2, Voiced, [Silence, Silence, Silence]);
    }
    assert Steps(c, s1, [Voiced, Voiced, Silence, Silence]) == s5 by {
      StepsCons(c, s1, Voiced, [Voiced, Silence, Silence]);
    }
    assert Steps(c, s1, [Voiced, Voiced, Silence, Silence, Silence]) == s6 by {
      StepsCons(c, s1, Voiced, [Voiced, Silence, Silence, Silence]);
    }
    assert Steps(c, s0, [Voiced, Voiced, Voiced, Silence, Silence]) == s5 by {
      StepsCons(c, s0, Voiced, [Voiced, Voiced, Silence, Silence]);
    }
    assert Steps(c, s0, [Voiced, Voiced, Voiced, Silence, Silence, Silence]) == s6 by {
      StepsCons(c, s0, Voiced, [Voiced, Voiced, Silence, Silence, Silence]);
    }
  }

  /** Processing two runs one after the other is processing their
      concatenation. */
  lemma {:induction false} StepsAppend(c: Config, s: State, a: seq<FrameType>, b: seq<FrameType>)
    requires ConfigOk(c) && Inv(c, s)
    ensures Steps(c, s, a + b) == Steps(c, Steps(c, s, a), b)
    decreases |a|
  {
    if a == [] {
      assert a + b == b;
    } else if !s.complete {
      assert (a + b)[1..] == a[1..] + b;
      StepsAppend(c, Step(c, s, a[0]), a[1..], b);
    }
  }

  /** Same settings: three Voiced, two Silence, one Voiced, three Silence. The
      Voiced frame resets the countdown, so only the last three Silence
      frames count, and detection happens on the very last frame. */
  lemma InterruptionExample(codec: Codec)
    requires codec.rate <= U32_MAX && codec.samplesPerPacket <= I32_MAX
    ensures var c := Config(256, 3, 2, codec);
            var s := Init(c, 0);
            && !Steps(c, s, [Voiced, Voiced, Voiced, Silence, Silence, Voiced, Silence, Silence]).complete
            && Steps(c, s, [Voiced, Voiced, Voiced, Silence, Silence, Voiced, Silence, Silence, Silence]).silenceDetected
  {
    var c := Config(256, 3, 2, codec);
    var s0 := Init(c, 0);
    var head := [Voiced, Voiced, Voiced, Silence, Silence];
    var s5 := Steps(c, s0, head);
    assert !s5.complete && s5.listening == 3 && s5.sampleCount == 0 by {
      SustainedSilenceExample(codec);
      ZeroBudgetNeverTimesOut(c, s0, head);
    }
    var s6 := Step(c, s5, Voiced);
    assert s6.listening == 4 && s6.silenceHits == 3 && !s6.complete && s6.sampleCount == 0;
    assert Steps(c, s0, head + [Voiced]) == s6 by { StepsSnoc(c, s0, head, Voiced); }
    SustainedSilenceDetects(c, s6);
    assert Repeat(Silence, 3) == [Silence, Silence, Silence];
    assert Repeat(Silence, 2) == [Silence, Silence];
    StepsAppend(c, s0, head + [Voiced], [Silence, Silence]);
    StepsAppend(c, s0, head + [Voiced], [Silence, Silence, Silence]);
    assert head + [Voiced] + [Silence, Silence] == [Voiced, Voiced, Voiced, Silence, Silence, Voiced, Silence, Silence];
    assert head + [Voiced] + [Silence, Silence, Silence]
        == [Voiced, Voiced, Voiced, Silence, Silence, Voiced, Silence, Silence, Silence];
  }
}

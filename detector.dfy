/** The per-stream detector record (wait_for_silence_t) and the media-bug
    callback that updates it in place, frame by frame. */
module WaitForSilence {
  import opened FrameClassifier
  import opened Hysteresis

  class Detector {
    // settings, fixed by wait_for_silence_start
    const silenceThreshold: nat
    const orgSilenceHits: nat
    const listenHits: nat
    const rate: nat
    const channels: nat
    const samplesPerPacket: nat

    // counters and outcome, updated by the callback
    var listening: nat
    var silenceHits: nat
    var sampleCount: int
    var complete: bool
    var silenceDetected: bool

    // what the callback publishes: channel variables and completion events
    var timeoutVar: Option<bool>
    var diagnostics: Option<Diagnostics>
    var events: seq<bool>

    function Cfg(): Config
    {
      Config(silenceThreshold, orgSilenceHits, listenHits, Codec(rate, channels, samplesPerPacket))
    }

    function Snapshot(): State
      reads this
    {
      State(listening, silenceHits, sampleCount, complete, silenceDetected, timeoutVar, diagnostics, events)
    }

    ghost predicate Valid()
      reads this
    {
      ConfigOk(Cfg()) && Inv(Cfg(), Snapshot())
    }

    /** wait_for_silence_start: copy the settings and the codec's packet
        size, and size the budget as (rate / 1000) * timeoutMs samples. */
    constructor (codec: Codec, silenceThreshold: nat, silenceHits: nat, listenHits: nat, timeoutMs: nat)
      requires StartOk(Config(silenceThreshold, silenceHits, listenHits, codec), timeoutMs)
      ensures Valid()
      ensures Cfg() == Config(silenceThreshold, silenceHits, listenHits, codec)
      ensures Snapshot() == Init(Cfg(), timeoutMs)
    {
      this.silenceThreshold := silenceThreshold;
      this.orgSilenceHits := silenceHits;
      this.listenHits := listenHits;
      this.rate := codec.rate;
      this.channels := codec.channels;
      this.samplesPerPacket := codec.samplesPerPacket;
      this.silenceHits := silenceHits;
      this.sampleCount := (codec.rate / 1000) * timeoutMs;
      this.listening := 0;
      this.complete := false;
      this.silenceDetected := false;
      this.timeoutVar := None;
      this.diagnostics := None;
      this.events := [];
    }

    /** wait_for_silence_callback: one callback from the host. The result is
        the callback's return value; false asks the host to detach. */
    method Feed(t: Tick) returns (keep: bool)
      requires Valid() && TickFits(t, channels)
      modifies this
      ensures Valid()
      ensures (Snapshot(), keep) == Callback(Cfg(), old(Snapshot()), t)
    {
      if t.OtherCallback? {
        return true;
      }
      if complete {
        return false;
      }
      var frame := t.frame;
      if frame.samples == 0 {
        return true;
      }
      var done := false;
      var timedOut := false;
      if sampleCount != 0 {
        sampleCount := sampleCount - samplesPerPacket;
        if sampleCount <= 0 {
          timeoutVar := Some(true);
          diagnostics := Some(Diagnostics(listening, silenceHits));
          done := true;
          timedOut := true;
        }
      }
      if !timedOut {
        var analysis := AnalyzeFrame(frame.audio, frame.samples, channels, rate, silenceThreshold);
        if analysis.frameType == Voiced {
          listening := Inc32(listening);
        }
        if listening > listenHits && analysis.frameType == Silence {
          silenceHits := Dec32(silenceHits);
          if silenceHits == 0 {
            timeoutVar := Some(false);
            silenceDetected := true;
            done := true;
          }
        } else {
          silenceHits := orgSilenceHits;
        }
      }
      if done {
        events := events + [silenceDetected];
        complete := true;
        return false;
      }
      return true;
    }
  }
}

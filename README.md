# wait_for_silence: a verified model of the silence detector

`mod_wait_for_silence` is a FreeSWITCH module. It watches the audio read from a call and signals when
sustained silence follows enough voice, or when a time budget runs out. It attaches a media bug to the
call. The bug's callback scores each 16-bit PCM frame, classifies the frame, and steps a small
hysteresis/timeout state machine held in a per-stream `wait_for_silence_t` record.

This project models that core in Dafny:

- `frame_classifier.dfy` (module `FrameClassifier`) models `wait_for_silence_analyze_frame`:
  - the integer energy loop, as the method `AnalyzeFrame`;
  - the recursive reference definition `Energy` that the loop is proved to compute;
  - the score `(energy * (rate / 8000)) / samples`;
  - the three-way classification into Silence, Voiced and BadFrame.
- `hysteresis.dfy` (module `Hysteresis`) models the callback as pure functions over a snapshot of the
  record:
  - `Step`: one non-empty frame;
  - `Steps`: a run of frames;
  - `Callback`: the full callback with its early returns;
  - `RunCallbacks`: a sequence of callbacks.
  It also holds the record invariant `Inv` and the lemmas about runs.
- `detector.dfy` (module `WaitForSilence`) holds the class `Detector`:
  - its fields are the record's fields;
  - its constructor models the field set-up in `wait_for_silence_start`;
  - its method `Feed` updates the fields in place exactly as the callback does, and is proved to follow
    `Callback`.

Besides the record's counters, the model records what the callback publishes:
- the `wait_for_silence_timeout` channel variable (`timeoutVar`);
- the two counter variables written on timeout (`diagnostics`);
- the Silence-Detected value of every completion event fired (`events`).

Fields the start routine does not set are zero, because the session allocator zero-fills memory:
`listening`, `complete` and `silence_detected`.

Integer widths are explicit:
- `listening++` and `--silence_hits` wrap around at 2^32 (`Inc32`, `Dec32`);
- the budget lives in a signed 32-bit field, and the preconditions keep every update inside that range.

Some details of the code are easy to misread:
- The read cursor advances by `2 + channels` per logical sample: one RMS position, one energy position, then `channels` more. The energy adds the
  magnitude at position `k * (2 + channels) + 1`.
- The Voiced test is a separate `if` that runs after the bad-frame test, so it overrides that test. A
  score at or above the threshold is Voiced even when it is 5000 or more. A frame is BadFrame only when
  `5000 <= score < threshold`.
- When `silence_hits` is 0, the countdown does not stay in `[0, silence_hits]`. The first primed silent
  frame wraps it to 2^32 - 1.
- The completion event carries only Silence-Detected. The counters reach the channel variables only on
  the timeout path.

## Model

| member | source | states |
|---|---|---|
| `FrameClassifier.AnalyzeFrame` | mod_wait_for_silence.c:128-173 | the loop's energy equals the reference sum of abs(audio[k*(2+channels)+1]) over the frame's samples; the score is that energy times rate/8000 (truncated), divided by the sample count (truncated); the frame type is the reference classification of the score |
| `FrameClassifier.ClassifyBands` | mod_wait_for_silence.c:160-170 | Voiced exactly when score >= threshold; BadFrame exactly when 5000 <= score < threshold; Silence exactly when the score is below both |
| `FrameClassifier.ThresholdBoundaries` | mod_wait_for_silence.c:162-170 | a score equal to the threshold is Voiced; one below it is Silence (threshold <= 5000) or BadFrame (threshold > 5000); a score of 5000 is BadFrame exactly when the threshold exceeds 5000 |
| `FrameClassifier.EnergyBound` | mod_wait_for_silence.c:141-148 | the energy of n logical samples is at most 32768 * n |
| `FrameClassifier.EnergyReadsOnlyStridePositions` | mod_wait_for_silence.c:141-148 | two buffers that agree at positions k*(2+channels)+1 give the same energy; no other position affects the classification |
| `FrameClassifier.ScoreBound` | mod_wait_for_silence.c:139-160 | the score is at most 32768 * (rate / 8000) |
| `FrameClassifier.ScoreFitsU32` | mod_wait_for_silence.c:160 | below 1,048,576,000 samples/s the score fits the unsigned 32-bit score field |
| `FrameClassifier.LowRateIsSilent` | mod_wait_for_silence.c:139-170 | below 8000 samples/s the divisor truncates to 0: the score is 0 and the frame is Silence, or Voiced if the threshold is 0 |
| `Hysteresis.Init` | mod_wait_for_silence.c:269-279 | the freshly started record satisfies the record invariant and is pending |
| `Hysteresis.Step` | mod_wait_for_silence.c:199-244 | keeps the invariant; the budget drops by the nominal packet size unless it is 0; the run times out exactly when a non-zero budget falls to <= 0, and then listening and silence_hits stay as they were; silence is detected exactly when the frame is Silence, listening > listen_hits and the countdown stood at 1; listening grows by one (wrapping) only on a Voiced frame; a pending countdown is decremented on a primed Silence frame and otherwise reset to its configured value |
| `Hysteresis.Steps` | mod_wait_for_silence.c:175-248 | a run of frames keeps the invariant, and a completed record is never changed |
| `Hysteresis.Callback` | mod_wait_for_silence.c:175-248 | keeps the invariant; other callback types return true; a read-replace callback returns false exactly when the record is complete afterwards; the event list changes only on the completing call, and then it holds the single outcome |
| `Hysteresis.RunCallbacks` | mod_wait_for_silence.c:175-248 | any sequence of callbacks keeps the invariant and fires at most one completion event |
| `Hysteresis.IgnoredTicksChangeNothing` | mod_wait_for_silence.c:177-197 | non-read-replace callbacks, callbacks on a completed record and empty frames change no field; they return false only for a read-replace callback on a completed record |
| `Hysteresis.CompletionIsFinal` | mod_wait_for_silence.c:184-187 | once complete, later callbacks change nothing, the single event stays single, and every read-replace callback returns false |
| `Hysteresis.OneEventPerRun` | mod_wait_for_silence.c:239-245 | from start, after any callbacks, exactly one event with the outcome has fired if the record is complete, and none otherwise |
| `Hysteresis.ListeningCountsVoiced` | mod_wait_for_silence.c:216-219 | while the run is pending and cannot wrap, listening grows by exactly the number of Voiced frames |
| `Hysteresis.CountdownTracksSilenceRun` | mod_wait_for_silence.c:221-235 | on a pending run, silence_hits equals org_silence_hits minus the trailing run of Silence frames (or the starting countdown minus the run when every frame was silent); it is back at the configured value when listening <= listen_hits |
| `Hysteresis.DetectionRequiresSilenceRun` | mod_wait_for_silence.c:221-230 | when the last frame of a run detects silence, listening > listen_hits, and the run ends in exactly org_silence_hits Silence frames or was entirely silent and as long as the starting countdown |
| `Hysteresis.DetectionFromStart` | mod_wait_for_silence.c:216-235 | from start, detection on the last frame means the run is at least silence_hits frames long and its last silence_hits frames were Silence |
| `Hysteresis.VoiceBeforeDetection` | mod_wait_for_silence.c:216-221 | from start, detection on the last frame means more than listen_hits of the frames were Voiced |
| `Hysteresis.NoPrimingNoDetection` | mod_wait_for_silence.c:216-235 | if listening can never exceed listen_hits, silence is never detected |
| `Hysteresis.PrimedSilentStep` | mod_wait_for_silence.c:221-230 | on a primed detector with budget to spare, a Silence frame keeps listening, lowers the countdown by one, detects silence exactly when the countdown was 1, and leaves budget to spare for the rest of the countdown |
| `Hysteresis.SustainedSilenceDetects` | mod_wait_for_silence.c:221-230 | with listening > listen_hits and budget to spare, as many Silence frames as the countdown shows detect silence on the last one and not before |
| `Hysteresis.ZeroBudgetNeverTimesOut` | mod_wait_for_silence.c:199-212 | a zero budget stays zero, so the run can only complete by detecting silence |
| `Hysteresis.BudgetForcesCompletion` | mod_wait_for_silence.c:199-211 | with a positive budget and packet size, any run whose nominal packet sizes add up to the budget completes, whatever the frames hold |
| `Hysteresis.RunIsSteps` | mod_wait_for_silence.c:175-248 | any sequence of callbacks leaves the record where the run of its processed frames (read-replace callbacks with a non-empty frame, in order) leaves it, so other callback types and empty frames never advance or reset a counter |
| `Hysteresis.CallbacksTimeOut` | mod_wait_for_silence.c:199-211 | from start, once the processed frames' nominal packet sizes add up to a positive budget, the callbacks have completed the detector |
| `Hysteresis.CallbacksNeedVoice` | mod_wait_for_silence.c:216-235 | from start, if at most listen_hits processed frames are Voiced, no callback detects silence |
| `Hysteresis.SustainedSilenceExample` | mod_wait_for_silence.c:216-235 | listen_hits 2, silence_hits 3, no timeout: 3 Voiced then 3 Silence frames detect silence on the third Silence frame, with listening 3 |
| `Hysteresis.InterruptionExample` | mod_wait_for_silence.c:216-235 | same settings: 3 Voiced, 2 Silence, 1 Voiced, 3 Silence frames stay pending through the 8th frame and detect silence on the 9th |
| `WaitForSilence.Detector.constructor` | mod_wait_for_silence.c:269-279 | the fields hold the settings, the countdown at silence_hits and the budget (rate / 1000) * timeout_ms; everything else is zero; the invariant holds |
| `WaitForSilence.Detector.Feed` | mod_wait_for_silence.c:175-248 | the in-place update of the record and the return value equal `Hysteresis.Callback` on the old record, and the invariant is kept |

## Left out

- Floating point is not modelled. The RMS, log10 and decibel diagnostics (mod_wait_for_silence.c:144-145, 152-158) feed no decision.
- `energy` is a `double` in the source. It holds a sum of integer magnitudes, and the model keeps it as an exact integer. The score is modelled as exact floor division. This agrees with the double computation while `samples * 32768 * (rate / 8000)` stays below 2^53.
- FrameClassifier.AnalyzeFrame: does not model the conversion of an out-of-range score to `uint32_t`, which is undefined in C. `ScoreFitsU32` gives the rate bound under which the conversion is exact.
- FrameClassifier.AnalyzeFrame: requires the buffer to hold every position the loop reads, up to `(samples - 1) * (2 + channels) + 1`. For one channel, that is past the end of a frame that holds exactly `samples` values.
- WaitForSilence.Detector.Feed: requires the frame buffer to fit the classifier's reads even on a callback where the budget runs out first. On that path the source never reads the buffer.
- WaitForSilence.Detector.constructor: requires `(rate / 1000) * timeout_ms` to fit `int32_t` and the packet size to fit `int32_t`. The wrapped values the source would store otherwise are not modelled.
- Hysteresis.VoiceBeforeDetection: stated only for runs of at most 2^32 - 1 frames, for the same reason as `ListeningCountsVoiced`.
- Hysteresis.ListeningCountsVoiced: stated only for runs that cannot wrap `listening` past 2^32 - 1. `Step` models the wrap itself.
- The failure paths of `wait_for_silence_start` are not modelled. These are a missing session, no read codec, L16 codec initialisation failure, and a media bug that cannot be attached (mod_wait_for_silence.c:252-267, 281-317). Attaching the bug and registering the channel's private slot are host glue.
- Clearing the channel's private slot on completion (mod_wait_for_silence.c:243) is host glue. Log messages are not modelled.
- Channel variables and the completion event are recorded as fields, not sent. These are `timeoutVar`, `diagnostics` and `events` (mod_wait_for_silence.c:66-74, 206-208, 225).
- The command handler `wait_for_silence_api_main` (mod_wait_for_silence.c:324-415) is not modelled. It parses arguments with `atoi`, looks up sessions under a lock, and starts or stops detection.
- Configuration loading, module load and module shutdown (mod_wait_for_silence.c:12-64, 76-94) are not modelled.
- The race between `stop` removing the bug (mod_wait_for_silence.c:375) and the callback completing (mod_wait_for_silence.c:242-243) is a concurrency matter. The model is sequential.

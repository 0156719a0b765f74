/** The segment recorder `record`, shared by the four recorder scripts, as a function of
    the frames the microphone delivers. Time is abstract: every frame carries the time at
    which its read returned, and all `time.time()` calls made while handling one frame
    read that same value. */
module Segmenter {
  import opened Wrappers
  import opened EnergyGate

  /** One microphone read: when it returned and what it returned. */
  datatype Tick = Tick(time: int, frame: Frame)

  /** The constants of one recorder script (times in milliseconds). `gate(f)` is the test
      `rms(f) >= rms_threshold` (see `Calibrated`); `cap` is the 30 s hard limit of `record`,
      absent in the duplicate-wav script. */
  datatype Config = Config(threshold: nat, gate: Frame -> bool, onset: Frame -> bool, splitSilence: nat,
                           finalSilence: nat, cap: Option<nat>, maxChunks: nat)

  /** `rms(f) >= threshold` for a frame `stream.read` can return. */
  function VoicedGate(threshold: nat): Frame -> bool
  {
    f => WellFormed(f) && Voiced(Measure(f).value, threshold)
  }

  /** `rms(f) > threshold` for a frame `stream.read` can return. */
  function OnsetGate(threshold: nat): Frame -> bool
  {
    f => WellFormed(f) && Onset(Measure(f).value, threshold)
  }

  /** The configuration's two tests are the energy tests at its own threshold. */
  ghost predicate Calibrated(c: Config)
  {
    c.gate == VoicedGate(c.threshold) && c.onset == OnsetGate(c.threshold)
  }

  /** A frame `stream.read(chunk)` can return: a non-empty even number of bytes. */
  predicate WellFormed(f: Frame) { f != [] && |f| % 2 == 0 }

  /** Every frame of the stream is well formed. */
  predicate Framed(ticks: seq<Tick>)
  {
    forall i :: 0 <= i < |ticks| ==> WellFormed(ticks[i].frame)
  }

  /** Frames are well formed and times never go backwards. */
  predicate ValidStream(ticks: seq<Tick>)
  {
    && Framed(ticks)
    && (forall i, j :: 0 <= i <= j < |ticks| ==> ticks[i].time <= ticks[j].time)
  }

  /** The frames still to come after `p` reads form a valid stream too. */
  lemma ValidSuffix(ticks: seq<Tick>, p: nat)
    requires ValidStream(ticks) && p <= |ticks|
    ensures ValidStream(ticks[p..])
  {
    var ts := ticks[p..];
    forall i, j | 0 <= i <= j < |ts| ensures ts[i].time <= ts[j].time {
      assert ts[i] == ticks[p + i] && ts[j] == ticks[p + j];
    }
  }

  /** `rms(frame) >= rms_threshold`: the frame pushes the split deadline forward. */
  predicate Loud(c: Config, f: Frame)
  {
    c.gate(f)
  }

  /** `rms(frame) > rms_threshold`: the frame starts a recording in a listen loop. */
  predicate Starts(c: Config, f: Frame)
  {
    c.onset(f)
  }

  /** `end` after the first `j` frames of a recording that began at `t0`. */
  function DeadlineAfter(c: Config, t0: int, ticks: seq<Tick>, j: nat): int
    requires j <= |ticks|
  {
    if j == 0 then t0 + c.splitSilence
    else if Loud(c, ticks[j - 1].frame) then ticks[j - 1].time + c.splitSilence
    else DeadlineAfter(c, t0, ticks, j - 1)
  }

  /** After appending frame `j` the loop ends: its time is past the deadline
      (`current <= end` fails) or past `timeout` (the `break`). */
  predicate StopsAfter(c: Config, t0: int, ticks: seq<Tick>, j: nat)
    requires j < |ticks|
  {
    || ticks[j].time > DeadlineAfter(c, t0, ticks, j + 1)
    || (c.cap.Some? && ticks[j].time > t0 + c.cap.value)
  }

  /** How many frames `record` reads, counting from frame `j` on; a stream that ends
      first ends the recording with it. */
  function ReadCount(c: Config, t0: int, ticks: seq<Tick>, j: nat): (n: nat)
    requires j <= |ticks|
    ensures j <= n <= |ticks|
    ensures j < |ticks| ==> n > j
    decreases |ticks| - j
  {
    if j == |ticks| then j
    else if StopsAfter(c, t0, ticks, j) then j + 1
    else ReadCount(c, t0, ticks, j + 1)
  }

  /** The loop reads on until a frame ends it: no frame before the last one read ends the
      loop, and the last one does unless the stream ran out. */
  lemma {:induction false} ReadCountStops(c: Config, t0: int, ticks: seq<Tick>, j: nat)
    requires j <= |ticks|
    ensures var n := ReadCount(c, t0, ticks, j);
      && (forall i :: j <= i < n - 1 ==> !StopsAfter(c, t0, ticks, i))
      && (n < |ticks| ==> StopsAfter(c, t0, ticks, n - 1))
    decreases |ticks| - j
  {
    if j < |ticks| {
      if StopsAfter(c, t0, ticks, j) {
        assert ReadCount(c, t0, ticks, j) == j + 1;
      } else {
        assert ReadCount(c, t0, ticks, j) == ReadCount(c, t0, ticks, j + 1);
        ReadCountStops(c, t0, ticks, j + 1);
      }
    }
  }

  /** One iteration of `record`'s loop moves the deadline only when frame `k` is voiced. */
  lemma DeadlineStep(c: Config, t0: int, ticks: seq<Tick>, k: nat)
    requires k < |ticks|
    ensures DeadlineAfter(c, t0, ticks, k + 1) ==
      if Loud(c, ticks[k].frame) then ticks[k].time + c.splitSilence
      else DeadlineAfter(c, t0, ticks, k)
  {
  }

  /** Frame `k` either ends the loop, being the last one read, or the count is the one
      from `k + 1` on. */
  lemma CountStep(c: Config, t0: int, ticks: seq<Tick>, k: nat)
    requires k < |ticks|
    ensures StopsAfter(c, t0, ticks, k) ==> ReadCount(c, t0, ticks, k) == k + 1
    ensures !StopsAfter(c, t0, ticks, k) ==> ReadCount(c, t0, ticks, k) == ReadCount(c, t0, ticks, k + 1)
  {
  }

  lemma FramesStep(ticks: seq<Tick>, k: nat)
    requires k < |ticks|
    ensures Frames(ticks)[..k + 1] == Frames(ticks)[..k] + [ticks[k].frame]
  {
  }

  function Frames(ticks: seq<Tick>): (fs: seq<Frame>)
    ensures |fs| == |ticks|
    ensures forall i :: 0 <= i < |ticks| ==> fs[i] == ticks[i].frame
  {
    seq(|ticks|, i requires 0 <= i < |ticks| => ticks[i].frame)
  }

  /** What one call of `record` produces. */
  datatype Recording = Recording(frames: seq<Frame>, read: nat, duration: int)

  /** `record` starting at `t0` with pre-roll `pre` over the frames still to come:
      the pre-roll followed by every frame read, and `end_time - start_time`. The recording
      keeps the pre-roll in front and the frames read after it in arrival order, and reads
      at least one frame when one is available. */
  function Record(c: Config, t0: int, pre: seq<Frame>, ticks: seq<Tick>): (r: Recording)
    ensures r.read == ReadCount(c, t0, ticks, 0)
    ensures r.read <= |ticks| && (ticks != [] ==> 1 <= r.read)
    ensures |r.frames| == |pre| + r.read && r.frames[..|pre|] == pre
    ensures forall i :: 0 <= i < r.read ==> r.frames[|pre| + i] == ticks[i].frame
  {
    var n := ReadCount(c, t0, ticks, 0);
    Recording(pre + Frames(ticks[..n]), n, if n == 0 then 0 else ticks[n - 1].time - t0)
  }

  /** `record` under configuration `c`, as a function of its start time, its pre-roll and
      the frames still to come. */
  function SegmentRecorder(c: Config): (int, seq<Frame>, seq<Tick>) -> Recording
  {
    (t0, pre, ticks) => Record(c, t0, pre, ticks)
  }

  /** `record` never reads more frames than are still to come. */
  lemma SegmentRecorderReadsWithin(c: Config)
    ensures forall t0, pre, ticks :: SegmentRecorder(c)(t0, pre, ticks).read <= |ticks|
  {
  }

  /** `self.rms(data) >= rms_threshold`, evaluated with `rms`: for a calibrated configuration
      this is the gate `ReadSegment` applies to every frame. */
  method TestLoud(c: Config, frame: Frame) returns (loud: bool)
    requires Calibrated(c) && WellFormed(frame)
    ensures loud == Loud(c, frame)
  {
    var level := Rms(frame);
    loud := Voiced(level.value, c.threshold);
  }

  /** `self.rms(audio_input) > rms_threshold`, evaluated with `rms`: for a calibrated
      configuration this is the test that starts a recording. */
  method TestOnset(c: Config, frame: Frame) returns (onset: bool)
    requires Calibrated(c) && WellFormed(frame)
    ensures onset == Starts(c, frame)
  {
    var level := Rms(frame);
    onset := Onset(level.value, c.threshold);
  }

  /** The reading loop of `record`, started at time `t0` with pre-roll `pre`: the pre-roll
      followed by the frames read until a frame arrives past the split deadline or past the
      cap, how many frames were read, and the time from `t0` to the last read. */
  method ReadSegment(c: Config, t0: int, pre: seq<Frame>, ticks: seq<Tick>)
    returns (rec: seq<Frame>, read: nat, duration: int)
    ensures var r := Record(c, t0, pre, ticks);
      rec == r.frames && read == r.read && duration == r.duration
  {
    ghost var n0 := ReadCount(c, t0, ticks, 0);
    rec := pre;
    var current := t0;
    var end := t0 + c.splitSilence;
    var k := 0;
    while k < |ticks|
      invariant 0 <= k <= |ticks|
      invariant rec == pre + Frames(ticks)[..k]
      invariant end == DeadlineAfter(c, t0, ticks, k)
      invariant ReadCount(c, t0, ticks, k) == n0
      invariant k == 0 ==> current == t0
      invariant k > 0 ==> current == ticks[k - 1].time
      decreases |ticks| - k
    {
      var tick := ticks[k];
      DeadlineStep(c, t0, ticks, k);
      CountStep(c, t0, ticks, k);
      FramesStep(ticks, k);
      if c.gate(tick.frame) {
        end := tick.time + c.splitSilence;
      }
      current := tick.time;
      rec := rec + [tick.frame];
      k := k + 1;
      if (c.cap.Some? && tick.time > t0 + c.cap.value) || current > end {
        break;
      }
    }
    FramesPrefix(ticks, n0);
    read := k;
    duration := current - t0;
  }

  lemma FramesPrefix(ticks: seq<Tick>, n: nat)
    requires n <= |ticks|
    ensures Frames(ticks[..n]) == Frames(ticks)[..n]
  {
  }

  /** A recording stops at the first frame that ends the loop, and its duration runs from
      `t0` to the time read after its last frame. */
  lemma RecordShape(c: Config, t0: int, pre: seq<Frame>, ticks: seq<Tick>)
    requires ticks != []
    ensures var r := Record(c, t0, pre, ticks);
      && (forall i :: 0 <= i < r.read - 1 ==> !StopsAfter(c, t0, ticks, i))
      && (r.read < |ticks| ==> StopsAfter(c, t0, ticks, r.read - 1))
      && r.duration == ticks[r.read - 1].time - t0
  {
    ReadCountStops(c, t0, ticks, 0);
  }

  /** The split deadline only moves forward. */
  lemma {:induction false} DeadlineMonotone(c: Config, t0: int, ticks: seq<Tick>, j: nat, k: nat)
    requires ValidStream(ticks) && j <= k <= |ticks|
    requires ticks != [] ==> t0 <= ticks[0].time
    ensures DeadlineAfter(c, t0, ticks, j) <= DeadlineAfter(c, t0, ticks, k)
    decreases k
  {
    if j < k {
      DeadlineMonotone(c, t0, ticks, j, k - 1);
      DeadlineBelowTime(c, t0, ticks, k - 1);
    }
  }

  /** After each voiced frame the deadline is at least that frame's time plus
      `split_silence_time`. */
  lemma {:induction false} DeadlineCoversVoiced(c: Config, t0: int, ticks: seq<Tick>, k: nat)
    requires ValidStream(ticks) && k <= |ticks|
    requires ticks != [] ==> t0 <= ticks[0].time
    ensures forall i :: 0 <= i < k && Loud(c, ticks[i].frame) ==>
              DeadlineAfter(c, t0, ticks, k) >= ticks[i].time + c.splitSilence
    decreases k
  {
    if k > 0 {
      DeadlineCoversVoiced(c, t0, ticks, k - 1);
      DeadlineMonotone(c, t0, ticks, k - 1, k);
    }
  }

  lemma {:induction false} DeadlineAtLeastStart(c: Config, t0: int, ticks: seq<Tick>, j: nat)
    requires ValidStream(ticks) && j <= |ticks|
    requires ticks != [] ==> t0 <= ticks[0].time
    ensures DeadlineAfter(c, t0, ticks, j) >= t0 + c.splitSilence
  {
    if j > 0 {
      DeadlineAtLeastStart(c, t0, ticks, j - 1);
    }
  }

  /** Before frame `j` is read, the deadline is at most that frame's time plus the split time. */
  lemma {:induction false} DeadlineBelowTime(c: Config, t0: int, ticks: seq<Tick>, j: nat)
    requires ValidStream(ticks) && j < |ticks|
    requires t0 <= ticks[0].time
    ensures DeadlineAfter(c, t0, ticks, j) <= ticks[j].time + c.splitSilence
  {
    if j > 0 {
      DeadlineBelowTime(c, t0, ticks, j - 1);
    }
  }

  /** With the hard cap, every frame read before the last arrived no later than `t0 + cap`,
      and none arrived past the split deadline in force at that point. */
  lemma CapBoundsRecording(c: Config, t0: int, pre: seq<Frame>, ticks: seq<Tick>)
    ensures var n := Record(c, t0, pre, ticks).read;
      forall i :: 0 <= i < n - 1 ==>
        && ticks[i].time <= DeadlineAfter(c, t0, ticks, i + 1)
        && (c.cap.Some? ==> ticks[i].time <= t0 + c.cap.value)
  {
    var n := ReadCount(c, t0, ticks, 0);
    ReadCountStops(c, t0, ticks, 0);
    forall i | 0 <= i && i + 1 < n
      ensures ticks[i].time <= DeadlineAfter(c, t0, ticks, i + 1)
      ensures c.cap.Some? ==> ticks[i].time <= t0 + c.cap.value
    {
      assert !StopsAfter(c, t0, ticks, i);
    }
  }

  /** Without a cap (the duplicate-wav script), only the split deadline ends a recording:
      a stream of voiced frames arriving within `split_silence_time` of each other is read
      to its end. */
  lemma {:induction false} NoCapKeepsRecording(c: Config, t0: int, ticks: seq<Tick>)
    requires c.cap.None? && ticks != []
    requires t0 <= ticks[0].time <= t0 + c.splitSilence
    requires forall i :: 0 <= i < |ticks| ==> Loud(c, ticks[i].frame)
    requires forall i :: 0 < i < |ticks| ==> ticks[i].time <= ticks[i - 1].time + c.splitSilence
    ensures ReadCount(c, t0, ticks, 0) == |ticks|
  {
    forall i | 0 <= i < |ticks| ensures !StopsAfter(c, t0, ticks, i) {
      assert DeadlineAfter(c, t0, ticks, i + 1) == ticks[i].time + c.splitSilence;
    }
    ReadCountStops(c, t0, ticks, 0);
  }
}

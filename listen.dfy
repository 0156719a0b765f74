/** The listen loops of `Recorder.py` as functions of the recorder's state: one pass of a
    loop body (`Stepped`), one window of the fixed-silence loops (`WindowFrom`), the wake-mode
    window of `listen_wait` (`WakeFrom`) and `listen_once` (`OnceFrom`). The methods of the
    `Recorder` class are proved to change their object exactly as these functions say, and
    the properties the loops promise are proved here about the functions. */
module Listening {
  import opened Wrappers
  import opened Text
  import opened EnergyGate
  import opened PreRoll
  import opened Segmenter
  import opened Profiles
  import opened Speaker
  import opened Transcript
  import Protocol

  /** What the services return for a recorded segment: the speech-to-text `result.text`, the
      identification reply, and the registry `profiles.json` holds. */
  datatype Services = Services(stt: seq<Frame> -> string,
                               identify: seq<Frame> -> IdentifyReply,
                               profiles: ProfileDict)

  /** `self.mode`: "continuous" fills the dialogue turn, "once" fills `recognized_text`. */
  datatype Mode = Continuous | Once

  /** What does not change while the recorder runs: its constants, the services, the
      frames the microphone will deliver, and `record` as a function of its start time, its
      pre-roll and the frames still to come (`SegmentRecorder` in the `Recorder` class; the
      loops below rely only on it reading no more frames than there are). */
  datatype Env = Env(config: Config, services: Services, ticks: seq<Tick>,
                     record: (int, seq<Frame>, seq<Tick>) -> Recording)

  /** The segment recorder reads only frames that are there. */
  ghost predicate ReadsWithin(record: (int, seq<Frame>, seq<Tick>) -> Recording)
  {
    forall t0, pre, ticks :: record(t0, pre, ticks).read <= |ticks|
  }

  /** The recorder's state: how many frames have been read, `prev_input`, `dialogue_turn`,
      `recognized_text`, and the audio of every wav file written, in order. */
  datatype Snapshot = Snapshot(pos: nat, prevInput: seq<Frame>, turn: Turn,
                               recognizedText: string, written: seq<seq<Frame>>)

  /** The state is reachable: no more frames read than delivered, and the pre-roll within
      `max_chunks`. */
  ghost predicate Started(e: Env, s: Snapshot)
  {
    s.pos <= |e.ticks| && |s.prevInput| <= e.config.maxChunks && ReadsWithin(e.record)
  }

  /** The frame at position `p` starts a recording: `rms > rms_threshold`. */
  predicate OnsetAt(e: Env, p: nat)
    requires p < |e.ticks|
  {
    Starts(e.config, e.ticks[p].frame)
  }

  /** `write`: the file is saved and the thread the mode selects adds its transcription. */
  function Transcribed(svc: Services, mode: Mode, s: Snapshot, recording: seq<Frame>, duration: int): Snapshot
  {
    var w := s.(written := s.written + [recording]);
    if mode == Continuous then
      w.(turn := SpeechAndSpeakerRecognition(s.turn, svc.stt(recording), svc.profiles,
                                             svc.identify(recording), duration))
    else w.(recognizedText := SpeechRecognition(s.recognizedText, svc.stt(recording)))
  }

  /** `record` started at `t0`: the segment is consumed, the pre-roll emptied, the file written. */
  function Recorded(e: Env, mode: Mode, s: Snapshot, t0: int): (t: Snapshot)
    requires s.pos <= |e.ticks| && ReadsWithin(e.record)
    ensures s.pos <= t.pos <= |e.ticks| && t.prevInput == []
  {
    var r := e.record(t0, s.prevInput, e.ticks[s.pos..]);
    Transcribed(e.services, mode, s.(pos := s.pos + r.read, prevInput := []), r.frames, r.duration)
  }

  /** One pass of a listen loop's body: read a frame; above the threshold it starts a
      recording at its time, otherwise it goes into the pre-roll. */
  function Stepped(e: Env, mode: Mode, s: Snapshot): (t: Snapshot)
    requires Started(e, s) && s.pos < |e.ticks|
    ensures Started(e, t) && s.pos < t.pos
  {
    var tick := e.ticks[s.pos];
    var s1 := s.(pos := s.pos + 1);
    if Starts(e.config, tick.frame) then Recorded(e, mode, s1, tick.time)
    else s1.(prevInput := Push(s.prevInput, tick.frame, e.config.maxChunks))
  }

  /** The dialogue turn only grows at its end; "once" mode leaves it alone and "continuous"
      mode leaves `recognized_text` alone. */
  predicate TurnKept(mode: Mode, s: Snapshot, t: Snapshot)
  {
    && |s.turn| <= |t.turn| && t.turn[..|s.turn|] == s.turn
    && (mode == Once ==> t.turn == s.turn)
    && (mode == Continuous ==> t.recognizedText == s.recognizedText)
  }

  lemma TurnKeptTransitive(mode: Mode, a: Snapshot, b: Snapshot, c: Snapshot)
    requires TurnKept(mode, a, b) && TurnKept(mode, b, c)
    ensures TurnKept(mode, a, c)
  {
    assert c.turn[..|a.turn|] == c.turn[..|b.turn|][..|a.turn|];
  }

  /** A pass of a loop body keeps the turn as `TurnKept` says. */
  lemma StepKeepsTurn(e: Env, mode: Mode, s: Snapshot)
    requires Started(e, s) && s.pos < |e.ticks|
    ensures TurnKept(mode, s, Stepped(e, mode, s))
  {
    var tick := e.ticks[s.pos];
    if Starts(e.config, tick.frame) {
      var r := e.record(tick.time, s.prevInput, e.ticks[s.pos + 1..]);
      var svc := e.services;
      TurnExtends(s.turn, svc.stt(r.frames), svc.profiles, svc.identify(r.frames), r.duration);
    }
  }

  /** How a window ended: the state after it, and the loop's `current` and `end` when it
      left the loop. */
  datatype Window = Window(state: Snapshot, clock: int, deadline: int)

  /** The loop `while current <= end` of `listen_continuous`, `listen_wait` outside wake mode
      and `listen_once`: an onset frame moves `end` to its time plus `final_silence_time` and
      records; a silent frame goes into the pre-roll and moves `current` to its time. */
  function WindowFrom(e: Env, mode: Mode, s: Snapshot, current: int, end: int): (w: Window)
    requires Started(e, s)
    ensures Started(e, w.state) && s.pos <= w.state.pos
    ensures current <= end && s.pos < |e.ticks| ==> s.pos < w.state.pos
    decreases |e.ticks| - s.pos
  {
    if current <= end && s.pos < |e.ticks| then
      var tick := e.ticks[s.pos];
      var onset := Starts(e.config, tick.frame);
      WindowFrom(e, mode, Stepped(e, mode, s), if onset then current else tick.time,
                 if onset then tick.time + e.config.finalSilence else end)
    else Window(s, current, end)
  }

  /** The positions of the frames a window's own loop reads (not those `record` reads),
      in order. */
  function Seen(e: Env, mode: Mode, s: Snapshot, current: int, end: int): seq<nat>
    requires Started(e, s)
    decreases |e.ticks| - s.pos
  {
    if current <= end && s.pos < |e.ticks| then
      var tick := e.ticks[s.pos];
      var onset := Starts(e.config, tick.frame);
      [s.pos] + Seen(e, mode, Stepped(e, mode, s), if onset then current else tick.time,
                     if onset then tick.time + e.config.finalSilence else end)
    else []
  }

  predicate SeenIn(e: Env, seen: seq<nat>)
  {
    forall k :: 0 <= k < |seen| ==> seen[k] < |e.ticks|
  }

  /** The time of the last frame of `seen` that is an onset (`onset`) or a silent frame
      (`!onset`), or `init` when there is none. */
  function LastTime(e: Env, onset: bool, init: int, seen: seq<nat>): int
    requires SeenIn(e, seen)
    decreases |seen|
  {
    if seen == [] then init
    else LastTime(e, onset, if OnsetAt(e, seen[0]) == onset then e.ticks[seen[0]].time else init, seen[1..])
  }

  lemma LastTimeCons(e: Env, onset: bool, init: int, p: nat, rest: seq<nat>)
    requires p < |e.ticks| && SeenIn(e, rest)
    ensures SeenIn(e, [p] + rest)
    ensures LastTime(e, onset, init, [p] + rest) ==
            LastTime(e, onset, if OnsetAt(e, p) == onset then e.ticks[p].time else init, rest)
  {
    assert ([p] + rest)[0] == p && ([p] + rest)[1..] == rest;
  }

  /** `LastTime` is the time of the last matching frame, or `init` when none matches. */
  lemma LastTimeIsLast(e: Env, onset: bool, init: int, seen: seq<nat>)
    requires SeenIn(e, seen)
    ensures (forall k :: 0 <= k < |seen| ==> OnsetAt(e, seen[k]) != onset) ==> LastTime(e, onset, init, seen) == init
    ensures forall k :: 0 <= k < |seen| && OnsetAt(e, seen[k]) == onset &&
                        (forall j :: k < j < |seen| ==> OnsetAt(e, seen[j]) != onset) ==>
              LastTime(e, onset, init, seen) == e.ticks[seen[k]].time
  {
    if forall k :: 0 <= k < |seen| ==> OnsetAt(e, seen[k]) != onset {
      LastTimeNone(e, onset, init, seen);
    }
    forall k | 0 <= k < |seen| && OnsetAt(e, seen[k]) == onset &&
               (forall j :: k < j < |seen| ==> OnsetAt(e, seen[j]) != onset)
      ensures LastTime(e, onset, init, seen) == e.ticks[seen[k]].time
    {
      LastTimeAt(e, onset, init, seen, k);
    }
  }

  lemma {:induction false} LastTimeNone(e: Env, onset: bool, init: int, seen: seq<nat>)
    requires SeenIn(e, seen)
    requires forall k :: 0 <= k < |seen| ==> OnsetAt(e, seen[k]) != onset
    ensures LastTime(e, onset, init, seen) == init
    decreases |seen|
  {
    if seen != [] {
      assert forall j :: 0 <= j < |seen[1..]| ==> seen[1..][j] == seen[j + 1];
      LastTimeNone(e, onset, init, seen[1..]);
    }
  }

  lemma {:induction false} LastTimeAt(e: Env, onset: bool, init: int, seen: seq<nat>, k: nat)
    requires SeenIn(e, seen) && k < |seen| && OnsetAt(e, seen[k]) == onset
    requires forall j :: k < j < |seen| ==> OnsetAt(e, seen[j]) != onset
    ensures LastTime(e, onset, init, seen) == e.ticks[seen[k]].time
    decreases |seen|
  {
    var rest := seen[1..];
    var init' := if OnsetAt(e, seen[0]) == onset then e.ticks[seen[0]].time else init;
    assert forall j :: 0 <= j < |rest| ==> rest[j] == seen[j + 1];
    if k == 0 {
      LastTimeNone(e, onset, init', rest);
    } else {
      LastTimeAt(e, onset, init', rest, k - 1);
    }
  }

  /** The window's own reads start where it starts, follow the stream in order, and lie
      within what was consumed. */
  ghost predicate ReadsInOrder(e: Env, mode: Mode, s: Snapshot, current: int, end: int)
    requires Started(e, s)
  {
    var seen := Seen(e, mode, s, current, end);
    && SeenIn(e, seen)
    && (current <= end && s.pos < |e.ticks| <==> seen != [])
    && (seen != [] ==> seen[0] == s.pos)
    && (forall k :: 0 <= k < |seen| ==> s.pos <= seen[k] < WindowFrom(e, mode, s, current, end).state.pos)
    && (forall k :: 0 <= k < |seen| - 1 ==> seen[k] < seen[k + 1])
  }

  lemma {:induction false} WindowReads(e: Env, mode: Mode, s: Snapshot, current: int, end: int)
    requires Started(e, s)
    ensures ReadsInOrder(e, mode, s, current, end)
    decreases |e.ticks| - s.pos
  {
    if current <= end && s.pos < |e.ticks| {
      var tick := e.ticks[s.pos];
      var onset := Starts(e.config, tick.frame);
      WindowReads(e, mode, Stepped(e, mode, s), if onset then current else tick.time,
                  if onset then tick.time + e.config.finalSilence else end);
      WindowReadsStep(e, mode, s, current, end);
    }
  }

  /** One frame of `WindowReads`. */
  lemma WindowReadsStep(e: Env, mode: Mode, s: Snapshot, current: int, end: int)
    requires Started(e, s) && current <= end && s.pos < |e.ticks|
    requires var tick := e.ticks[s.pos];
      var onset := Starts(e.config, tick.frame);
      ReadsInOrder(e, mode, Stepped(e, mode, s), if onset then current else tick.time,
                   if onset then tick.time + e.config.finalSilence else end)
    ensures ReadsInOrder(e, mode, s, current, end)
  {
    var tick := e.ticks[s.pos];
    var onset := Starts(e.config, tick.frame);
    var next := Stepped(e, mode, s);
    var cur', end' := if onset then current else tick.time, if onset then tick.time + e.config.finalSilence else end;
    WindowStep(e, mode, s, current, end);
    ReadsCons(e, s.pos, next.pos, WindowFrom(e, mode, next, cur', end').state.pos, Seen(e, mode, next, cur', end'));
  }

  /** Reading position `p` before positions `rest` that lie in order in `[q, hi)`, with
      `p < q`, keeps them in order in `[p, hi)`. */
  lemma ReadsCons(e: Env, p: nat, q: nat, hi: nat, rest: seq<nat>)
    requires p < |e.ticks| && p < q <= hi && SeenIn(e, rest)
    requires forall k :: 0 <= k < |rest| ==> q <= rest[k] < hi
    requires forall k :: 0 <= k < |rest| - 1 ==> rest[k] < rest[k + 1]
    ensures var seen := [p] + rest;
      && SeenIn(e, seen)
      && (forall k :: 0 <= k < |seen| ==> p <= seen[k] < hi)
      && (forall k :: 0 <= k < |seen| - 1 ==> seen[k] < seen[k + 1])
  {
    var seen := [p] + rest;
    assert forall k :: 0 < k < |seen| ==> seen[k] == rest[k - 1];
  }

  /** The deadline a window leaves the loop with is the time of its last onset frame plus
      `final_silence_time`, or the starting `end` when it had none. */
  ghost predicate DeadlineIsLastOnset(e: Env, mode: Mode, s: Snapshot, current: int, end: int)
    requires Started(e, s)
  {
    var seen := Seen(e, mode, s, current, end);
    && SeenIn(e, seen)
    && WindowFrom(e, mode, s, current, end).deadline ==
       LastTime(e, true, end - e.config.finalSilence, seen) + e.config.finalSilence
  }

  lemma {:induction false} WindowDeadline(e: Env, mode: Mode, s: Snapshot, current: int, end: int)
    requires Started(e, s)
    ensures DeadlineIsLastOnset(e, mode, s, current, end)
    decreases |e.ticks| - s.pos
  {
    if current <= end && s.pos < |e.ticks| {
      var tick := e.ticks[s.pos];
      var onset := Starts(e.config, tick.frame);
      WindowDeadline(e, mode, Stepped(e, mode, s), if onset then current else tick.time,
                     if onset then tick.time + e.config.finalSilence else end);
      WindowDeadlineStep(e, mode, s, current, end);
    }
  }

  /** One frame of `WindowDeadline`. */
  lemma WindowDeadlineStep(e: Env, mode: Mode, s: Snapshot, current: int, end: int)
    requires Started(e, s) && current <= end && s.pos < |e.ticks|
    requires var tick := e.ticks[s.pos];
      var onset := Starts(e.config, tick.frame);
      DeadlineIsLastOnset(e, mode, Stepped(e, mode, s), if onset then current else tick.time,
                          if onset then tick.time + e.config.finalSilence else end)
    ensures DeadlineIsLastOnset(e, mode, s, current, end)
  {
    var tick := e.ticks[s.pos];
    var onset := Starts(e.config, tick.frame);
    var next := Stepped(e, mode, s);
    var cur', end' := if onset then current else tick.time, if onset then tick.time + e.config.finalSilence else end;
    WindowStep(e, mode, s, current, end);
    var rest := Seen(e, mode, next, cur', end');
    LastTimeCons(e, true, end - e.config.finalSilence, s.pos, rest);
    assert end' - e.config.finalSilence == if onset then tick.time else end - e.config.finalSilence;
  }

  /** The clock a window leaves the loop with is the time of its last silent frame, or the
      starting `current` when it had none. */
  lemma {:induction false} WindowClock(e: Env, mode: Mode, s: Snapshot, current: int, end: int)
    requires Started(e, s)
    ensures var seen := Seen(e, mode, s, current, end);
      SeenIn(e, seen) && WindowFrom(e, mode, s, current, end).clock == LastTime(e, false, current, seen)
    decreases |e.ticks| - s.pos
  {
    WindowReads(e, mode, s, current, end);
    if current <= end && s.pos < |e.ticks| {
      var tick := e.ticks[s.pos];
      var onset := Starts(e.config, tick.frame);
      var next := Stepped(e, mode, s);
      var cur', end' := if onset then current else tick.time, if onset then tick.time + e.config.finalSilence else end;
      WindowClock(e, mode, next, cur', end');
      var rest := Seen(e, mode, next, cur', end');
      assert Seen(e, mode, s, current, end) == [s.pos] + rest;
      LastTimeCons(e, false, current, s.pos, rest);
    }
  }

  /** A window leaves its loop only when `current <= end` fails or the microphone has
      nothing more. */
  lemma {:induction false} WindowExit(e: Env, mode: Mode, s: Snapshot, current: int, end: int)
    requires Started(e, s)
    ensures var w := WindowFrom(e, mode, s, current, end);
      w.state.pos == |e.ticks| || w.clock > w.deadline
    decreases |e.ticks| - s.pos
  {
    if current <= end && s.pos < |e.ticks| {
      var tick := e.ticks[s.pos];
      var onset := Starts(e.config, tick.frame);
      WindowExit(e, mode, Stepped(e, mode, s), if onset then current else tick.time,
                 if onset then tick.time + e.config.finalSilence else end);
    }
  }

  /** Every frame of `seen` but the last that is silent arrived by `deadline`, the deadline
      in force when it was read; an onset frame moves the deadline to its time plus
      `final_silence_time`. */
  ghost predicate InTime(e: Env, deadline: int, seen: seq<nat>)
    decreases |seen|
  {
    |seen| <= 1 ||
    (seen[0] < |e.ticks| &&
     if OnsetAt(e, seen[0]) then InTime(e, e.ticks[seen[0]].time + e.config.finalSilence, seen[1..])
     else e.ticks[seen[0]].time <= deadline && InTime(e, deadline, seen[1..]))
  }

  /** Before a window leaves its loop, every silent frame it read but the last arrived
      within the deadline then in force. */
  lemma {:induction false} WindowInTime(e: Env, mode: Mode, s: Snapshot, current: int, end: int)
    requires Started(e, s)
    ensures InTime(e, end, Seen(e, mode, s, current, end))
    decreases |e.ticks| - s.pos
  {
    if current <= end && s.pos < |e.ticks| {
      var tick := e.ticks[s.pos];
      var onset := Starts(e.config, tick.frame);
      var next := Stepped(e, mode, s);
      var cur', end' := if onset then current else tick.time, if onset then tick.time + e.config.finalSilence else end;
      WindowInTime(e, mode, next, cur', end');
      SeenOnlyWithin(e, mode, next, cur', end');
      WindowStep(e, mode, s, current, end);
    }
  }

  /** A window reads nothing once its clock has passed its deadline. */
  lemma SeenOnlyWithin(e: Env, mode: Mode, s: Snapshot, current: int, end: int)
    requires Started(e, s)
    ensures Seen(e, mode, s, current, end) != [] ==> current <= end
  {
  }

  /** `InTime` spelt out: the deadline in force before the `k`-th frame is the time of the
      last onset frame before it plus `final_silence_time`, or the deadline at the start. */
  lemma {:induction false} InTimeMeans(e: Env, init: int, seen: seq<nat>)
    requires SeenIn(e, seen) && InTime(e, init + e.config.finalSilence, seen)
    ensures forall k :: 0 <= k < |seen| - 1 && !OnsetAt(e, seen[k]) ==>
      e.ticks[seen[k]].time <= LastTime(e, true, init, seen[..k]) + e.config.finalSilence
    decreases |seen|
  {
    if |seen| > 1 {
      var p, rest := seen[0], seen[1..];
      var init' := if OnsetAt(e, p) then e.ticks[p].time else init;
      assert init' + e.config.finalSilence == if OnsetAt(e, p) then e.ticks[p].time + e.config.finalSilence else init + e.config.finalSilence;
      InTimeMeans(e, init', rest);
      assert seen == [p] + rest;
      SilentWithinCons(e, init, p, rest);
    }
  }

  /** The deadline in force before each silent frame of `[p] + rest` but the last, given
      that it holds for `rest` with the deadline `p` leaves behind, and that a silent `p`
      followed by more reads arrived within the deadline `init` stands for. */
  lemma SilentWithinCons(e: Env, init: int, p: nat, rest: seq<nat>)
    requires p < |e.ticks| && SeenIn(e, rest)
    requires rest != [] && !OnsetAt(e, p) ==> e.ticks[p].time <= init + e.config.finalSilence
    requires var init' := if OnsetAt(e, p) then e.ticks[p].time else init;
      forall k :: 0 <= k < |rest| - 1 && !OnsetAt(e, rest[k]) ==>
        e.ticks[rest[k]].time <= LastTime(e, true, init', rest[..k]) + e.config.finalSilence
    ensures var seen := [p] + rest;
      && SeenIn(e, seen)
      && (forall k :: 0 <= k < |seen| - 1 && !OnsetAt(e, seen[k]) ==>
            e.ticks[seen[k]].time <= LastTime(e, true, init, seen[..k]) + e.config.finalSilence)
  {
    var seen := [p] + rest;
    forall k | 0 <= k < |seen| - 1 && !OnsetAt(e, seen[k])
      ensures e.ticks[seen[k]].time <= LastTime(e, true, init, seen[..k]) + e.config.finalSilence
    {
      if k == 0 {
        assert seen[..0] == [];
      } else {
        assert seen[..k] == [p] + rest[..k - 1];
        assert seen[k] == rest[k - 1];
        LastTimeCons(e, true, init, p, rest[..k - 1]);
      }
    }
  }

  /** The pre-roll a window leaves ends with the last frame its loop read, when that frame
      was silent. */
  ghost predicate EndsWithLatestSilent(e: Env, seen: seq<nat>, w: Window)
  {
    SeenIn(e, seen) &&
    (seen != [] && !OnsetAt(e, seen[|seen| - 1]) ==>
      w.state.prevInput != [] && w.state.prevInput[|w.state.prevInput| - 1] == e.ticks[seen[|seen| - 1]].frame)
  }

  lemma {:induction false} WindowLeavesLatestSilent(e: Env, mode: Mode, s: Snapshot, current: int, end: int)
    requires Started(e, s) && e.config.maxChunks > 0
    ensures EndsWithLatestSilent(e, Seen(e, mode, s, current, end), WindowFrom(e, mode, s, current, end))
    decreases |e.ticks| - s.pos
  {
    if current <= end && s.pos < |e.ticks| {
      var tick := e.ticks[s.pos];
      var onset := Starts(e.config, tick.frame);
      WindowLeavesLatestSilent(e, mode, Stepped(e, mode, s), if onset then current else tick.time,
                               if onset then tick.time + e.config.finalSilence else end);
      LatestSilentStep(e, mode, s, current, end);
    }
  }

  /** One frame of `WindowLeavesLatestSilent`. */
  lemma LatestSilentStep(e: Env, mode: Mode, s: Snapshot, current: int, end: int)
    requires Started(e, s) && e.config.maxChunks > 0 && current <= end && s.pos < |e.ticks|
    requires var tick := e.ticks[s.pos];
      var onset := Starts(e.config, tick.frame);
      var next, cur', end' := Stepped(e, mode, s), if onset then current else tick.time,
                              if onset then tick.time + e.config.finalSilence else end;
      EndsWithLatestSilent(e, Seen(e, mode, next, cur', end'), WindowFrom(e, mode, next, cur', end'))
    ensures EndsWithLatestSilent(e, Seen(e, mode, s, current, end), WindowFrom(e, mode, s, current, end))
  {
    var tick := e.ticks[s.pos];
    var onset := Starts(e.config, tick.frame);
    var next := Stepped(e, mode, s);
    var cur', end' := if onset then current else tick.time, if onset then tick.time + e.config.finalSilence else end;
    WindowStep(e, mode, s, current, end);
    SeenNoneStays(e, mode, next, cur', end');
    if !onset {
      SilentStepPushes(e, mode, s);
    }
    LatestSilentCons(e, s.pos, Seen(e, mode, next, cur', end'), WindowFrom(e, mode, next, cur', end'), next);
  }

  /** Reading position `p` from state `next`'s predecessor before the positions `rest`. */
  lemma LatestSilentCons(e: Env, p: nat, rest: seq<nat>, w: Window, next: Snapshot)
    requires p < |e.ticks| && EndsWithLatestSilent(e, rest, w)
    requires rest == [] ==> w.state == next
    requires !OnsetAt(e, p) ==> next.prevInput != [] && next.prevInput[|next.prevInput| - 1] == e.ticks[p].frame
    ensures EndsWithLatestSilent(e, [p] + rest, w)
  {
    var seen := [p] + rest;
    LastOfCons(seen, p, rest);
    assert forall k :: 0 < k < |seen| ==> seen[k] == rest[k - 1];
  }

  /** The positions a window reads are positions of the microphone's frames. */
  lemma WindowSeenIn(e: Env, mode: Mode, s: Snapshot, current: int, end: int)
    requires Started(e, s)
    ensures SeenIn(e, Seen(e, mode, s, current, end))
  {
    WindowReads(e, mode, s, current, end);
  }

  lemma LastOfCons(seen: seq<nat>, p: nat, rest: seq<nat>)
    requires seen == [p] + rest
    ensures seen != [] && seen[|seen| - 1] == if rest == [] then p else rest[|rest| - 1]
  {
  }

  /** A window whose loop reads nothing leaves the state as it was. */
  lemma SeenNoneStays(e: Env, mode: Mode, s: Snapshot, current: int, end: int)
    requires Started(e, s)
    ensures Seen(e, mode, s, current, end) == [] ==> WindowFrom(e, mode, s, current, end).state == s
  {
  }

  /** A silent frame ends the pre-roll. */
  lemma SilentStepPushes(e: Env, mode: Mode, s: Snapshot)
    requires Started(e, s) && s.pos < |e.ticks| && e.config.maxChunks > 0
    requires !Starts(e.config, e.ticks[s.pos].frame)
    ensures var t := Stepped(e, mode, s);
      t.prevInput != [] && t.prevInput[|t.prevInput| - 1] == e.ticks[s.pos].frame
  {
    PushKeepsLatest(s.prevInput, e.ticks[s.pos].frame, e.config.maxChunks);
  }

  /** A window keeps the turn as `TurnKept` says. */
  lemma {:induction false} WindowKeepsTurn(e: Env, mode: Mode, s: Snapshot, current: int, end: int)
    requires Started(e, s)
    ensures TurnKept(mode, s, WindowFrom(e, mode, s, current, end).state)
    decreases |e.ticks| - s.pos
  {
    if current <= end && s.pos < |e.ticks| {
      var tick := e.ticks[s.pos];
      var onset := Starts(e.config, tick.frame);
      var next := Stepped(e, mode, s);
      StepKeepsTurn(e, mode, s);
      WindowKeepsTurn(e, mode, next, if onset then current else tick.time,
                      if onset then tick.time + e.config.finalSilence else end);
      TurnKeptTransitive(mode, s, next, WindowFrom(e, mode, s, current, end).state);
    }
  }

  /** One pass of the window loop, while `current <= end` and a frame is there. */
  lemma WindowStep(e: Env, mode: Mode, s: Snapshot, current: int, end: int)
    requires Started(e, s) && current <= end && s.pos < |e.ticks|
    ensures var tick := e.ticks[s.pos];
      var onset := Starts(e.config, tick.frame);
      var next, current', end' := Stepped(e, mode, s), if onset then current else tick.time,
                                  if onset then tick.time + e.config.finalSilence else end;
      && WindowFrom(e, mode, s, current, end) == WindowFrom(e, mode, next, current', end')
      && Seen(e, mode, s, current, end) == [s.pos] + Seen(e, mode, next, current', end')
  {
  }

  /** What a window opened at clock time `now` (so `end` starts at `now` plus
      `final_silence_time`) promises about the times it ends with, given the positions
      `seen` its own loop read: the deadline is the time of the last onset frame plus
      `final_silence_time` (or `now` plus it); the clock is the time of the last silent
      frame (or `now`); and the loop left because the clock passed the deadline or the
      microphone had nothing more. */
  ghost predicate WindowTimes(e: Env, now: int, w: Window, seen: seq<nat>)
  {
    && SeenIn(e, seen)
    && w.deadline == LastTime(e, true, now, seen) + e.config.finalSilence
    && w.clock == LastTime(e, false, now, seen)
    && (w.state.pos == |e.ticks| || w.clock > w.deadline)
  }

  lemma WindowKeepsTimes(e: Env, mode: Mode, s: Snapshot, now: int)
    requires Started(e, s)
    ensures var end := now + e.config.finalSilence;
      WindowTimes(e, now, WindowFrom(e, mode, s, now, end), Seen(e, mode, s, now, end))
  {
    var end := now + e.config.finalSilence;
    assert end - e.config.finalSilence == now;
    WindowDeadline(e, mode, s, now, end);
    WindowClock(e, mode, s, now, end);
    WindowExit(e, mode, s, now, end);
  }

  /** What the same window promises about the frames it read and the state it leaves: its
      reads follow the stream in order from where it started, within what it consumed;
      every silent frame before the last arrived within the deadline then in force; and the
      turn is kept as `TurnKept` says. */
  ghost predicate WindowReadsInTime(e: Env, mode: Mode, s: Snapshot, now: int, w: Window, seen: seq<nat>)
  {
    && SeenIn(e, seen)
    && (s.pos < |e.ticks| ==> seen != [] && seen[0] == s.pos)
    && (forall k :: 0 <= k < |seen| ==> s.pos <= seen[k] < w.state.pos)
    && (forall k :: 0 <= k < |seen| - 1 && !OnsetAt(e, seen[k]) ==>
          e.ticks[seen[k]].time <= LastTime(e, true, now, seen[..k]) + e.config.finalSilence)
    && TurnKept(mode, s, w.state)
  }

  lemma WindowKeepsOrder(e: Env, mode: Mode, s: Snapshot, now: int)
    requires Started(e, s)
    ensures var end := now + e.config.finalSilence;
      WindowReadsInTime(e, mode, s, now, WindowFrom(e, mode, s, now, end), Seen(e, mode, s, now, end))
  {
    var end := now + e.config.finalSilence;
    WindowReads(e, mode, s, now, end);
    WindowInTime(e, mode, s, now, end);
    InTimeMeans(e, now, Seen(e, mode, s, now, end));
    WindowKeepsTurn(e, mode, s, now, end);
  }

  /** The wake-mode loop of `listen_wait`: before every read it looks for an exit keyword in
      the turn text and stops at the first one. */
  function WakeFrom(e: Env, mode: Mode, s: Snapshot): (t: Snapshot)
    requires Started(e, s)
    ensures s.pos <= t.pos <= |e.ticks|
    decreases |e.ticks| - s.pos
  {
    if ContainsAny(TurnText(s.turn), Protocol.ExitKeywords) || s.pos == |e.ticks| then s
    else WakeFrom(e, mode, Stepped(e, mode, s))
  }

  /** A wake window changes nothing when the turn already holds a keyword; otherwise it ends
      with a keyword in the turn or with the microphone exhausted, and its last read was made
      from a state whose turn held no keyword. */
  lemma {:induction false} WakeStopsAtFirstKeyword(e: Env, mode: Mode, s: Snapshot)
    requires Started(e, s)
    ensures ContainsAny(TurnText(s.turn), Protocol.ExitKeywords) ==> WakeFrom(e, mode, s) == s
    ensures ContainsAny(TurnText(WakeFrom(e, mode, s).turn), Protocol.ExitKeywords) ||
            WakeFrom(e, mode, s).pos == |e.ticks|
    ensures WakeFrom(e, mode, s).pos > s.pos ==>
      exists b: Snapshot :: Started(e, b) && b.pos < |e.ticks| && !ContainsAny(TurnText(b.turn), Protocol.ExitKeywords) &&
                            Stepped(e, mode, b) == WakeFrom(e, mode, s)
    decreases |e.ticks| - s.pos
  {
    if !(ContainsAny(TurnText(s.turn), Protocol.ExitKeywords) || s.pos == |e.ticks|) {
      var next := Stepped(e, mode, s);
      WakeStopsAtFirstKeyword(e, mode, next);
      if WakeFrom(e, mode, next) == next {
        assert Stepped(e, mode, s) == WakeFrom(e, mode, s);
      }
    }
  }

  /** A wake window keeps the turn as `TurnKept` says. */
  lemma {:induction false} WakeKeepsTurn(e: Env, mode: Mode, s: Snapshot)
    requires Started(e, s)
    ensures TurnKept(mode, s, WakeFrom(e, mode, s))
    decreases |e.ticks| - s.pos
  {
    if !(ContainsAny(TurnText(s.turn), Protocol.ExitKeywords) || s.pos == |e.ticks|) {
      var next := Stepped(e, mode, s);
      StepKeepsTurn(e, mode, s);
      WakeKeepsTurn(e, mode, next);
      TurnKeptTransitive(mode, s, next, WakeFrom(e, mode, s));
    }
  }

  /** What `listen_once` ends with: the state, the stripped text it returns (`None` when the
      microphone ran out first), and `recognized_text` at the end of each window, in order. */
  datatype OnceRun = OnceRun(state: Snapshot, result: Option<string>, texts: seq<string>)

  /** The window `listen_once` opens at clock time `clock`. */
  function OnceWindow(e: Env, s: Snapshot, clock: int): (w: Snapshot)
    requires Started(e, s) && s.pos < |e.ticks|
    ensures Started(e, w) && s.pos < w.pos
  {
    WindowFrom(e, Once, s, clock, clock + e.config.finalSilence).state
  }

  /** The windows of `listen_once` from state `s`, the next one opening at time `clock`. */
  function OnceFrom(e: Env, s: Snapshot, clock: int): (o: OnceRun)
    requires Started(e, s)
    decreases |e.ticks| - s.pos
  {
    if s.pos < |e.ticks| then
      var w := OnceWindow(e, s, clock);
      if w.recognizedText != "" then
        OnceRun(w.(recognizedText := Strip(w.recognizedText)), Some(Strip(w.recognizedText)), [w.recognizedText])
      else
        var o := OnceFrom(e, w, e.ticks[w.pos - 1].time);
        OnceRun(o.state, o.result, [""] + o.texts)
    else OnceRun(s, None, [])
  }

  /** One window of `listen_once`: it returns when the window ended with something
      recognized, and otherwise the run goes on from the window's state, the next window
      opening at the time of the last frame read. */
  lemma OnceStep(e: Env, s: Snapshot, clock: int)
    requires Started(e, s) && s.pos < |e.ticks|
    ensures var w := OnceWindow(e, s, clock);
      && (w.recognizedText != "" ==>
            OnceFrom(e, s, clock) ==
            OnceRun(w.(recognizedText := Strip(w.recognizedText)), Some(Strip(w.recognizedText)), [w.recognizedText]))
      && (w.recognizedText == "" ==>
            var o := OnceFrom(e, w, e.ticks[w.pos - 1].time);
            OnceFrom(e, s, clock) == OnceRun(o.state, o.result, [""] + o.texts))
  {
    var w := OnceWindow(e, s, clock);
    if w.recognizedText != "" {
      OnceReturns(e, s, clock, w);
    } else {
      OnceGoesOn(e, s, clock, w);
    }
  }

  lemma OnceReturns(e: Env, s: Snapshot, clock: int, w: Snapshot)
    requires Started(e, s) && s.pos < |e.ticks| && w == OnceWindow(e, s, clock) && w.recognizedText != ""
    ensures OnceFrom(e, s, clock) ==
            OnceRun(w.(recognizedText := Strip(w.recognizedText)), Some(Strip(w.recognizedText)), [w.recognizedText])
  {
  }

  lemma OnceGoesOn(e: Env, s: Snapshot, clock: int, w: Snapshot)
    requires Started(e, s) && s.pos < |e.ticks| && w == OnceWindow(e, s, clock) && w.recognizedText == ""
    ensures var o := OnceFrom(e, w, e.ticks[w.pos - 1].time);
      OnceFrom(e, s, clock) == OnceRun(o.state, o.result, [""] + o.texts)
  {
  }

  /** The loop of `listen_once`, one window further: an empty window adds `""` to the
      texts seen so far and the run goes on from the window's state. */
  lemma OnceContinues(e: Env, s: Snapshot, clock: int, w: Snapshot, o0: OnceRun, texts: seq<string>)
    requires Started(e, s) && s.pos < |e.ticks| && w == OnceWindow(e, s, clock) && w.recognizedText == ""
    requires var o := OnceFrom(e, s, clock); o0 == OnceRun(o.state, o.result, texts + o.texts)
    ensures Started(e, w) && 0 < w.pos
    ensures var rest := OnceFrom(e, w, e.ticks[w.pos - 1].time);
      o0 == OnceRun(rest.state, rest.result, (texts + [""]) + rest.texts)
  {
    OnceGoesOn(e, s, clock, w);
    var rest := OnceFrom(e, w, e.ticks[w.pos - 1].time);
    AppendAssoc(texts, [""], rest.texts);
  }

  /** The loop of `listen_once`, ending: a window that recognized something is the last. */
  lemma OnceEnds(e: Env, s: Snapshot, clock: int, w: Snapshot, o0: OnceRun, texts: seq<string>)
    requires Started(e, s) && s.pos < |e.ticks| && w == OnceWindow(e, s, clock) && w.recognizedText != ""
    requires var o := OnceFrom(e, s, clock); o0 == OnceRun(o.state, o.result, texts + o.texts)
    ensures o0 == OnceRun(w.(recognizedText := Strip(w.recognizedText)), Some(Strip(w.recognizedText)),
                          texts + [w.recognizedText])
  {
    OnceReturns(e, s, clock, w);
  }

  /** "once" mode leaves the dialogue turn alone. */
  lemma {:induction false} OnceKeepsTurn(e: Env, s: Snapshot, clock: int)
    requires Started(e, s)
    ensures OnceFrom(e, s, clock).state.turn == s.turn
    decreases |e.ticks| - s.pos
  {
    if s.pos < |e.ticks| {
      var w := OnceWindow(e, s, clock);
      WindowKeepsTurn(e, Once, s, clock, clock + e.config.finalSilence);
      if w.recognizedText != "" {
        OnceReturns(e, s, clock, w);
      } else {
        OnceGoesOn(e, s, clock, w);
        OnceKeepsTurn(e, w, e.ticks[w.pos - 1].time);
      }
    }
  }

  /** The text the last window of a `listen_once` run ended with ("" when none did). */
  function LastText(o: OnceRun): string
  {
    if o.texts == [] then "" else o.texts[|o.texts| - 1]
  }

  /** `recognized_text` ends each window but the last empty; `listen_once` returns the last
      window's text stripped, and returns nothing only when the microphone ran out with
      nothing recognized. */
  lemma {:induction false} OnceReturnsFirstText(e: Env, s: Snapshot, clock: int)
    requires Started(e, s) && s.recognizedText == ""
    ensures var o := OnceFrom(e, s, clock);
      && (forall k :: 0 <= k < |o.texts| - 1 ==> o.texts[k] == "")
      && (o.result.None? ==> o.state.pos == |e.ticks| && o.state.recognizedText == "" && LastText(o) == "")
      && (o.result.Some? ==>
            o.texts != [] && LastText(o) != "" && o.result.value == Strip(LastText(o)) == o.state.recognizedText)
    decreases |e.ticks| - s.pos
  {
    if s.pos < |e.ticks| {
      OnceStep(e, s, clock);
      var w := OnceWindow(e, s, clock);
      if w.recognizedText == "" {
        var c := e.ticks[w.pos - 1].time;
        OnceReturnsFirstText(e, w, c);
        OnceSkipsEmpty(OnceFrom(e, s, clock), OnceFrom(e, w, c));
      }
    }
  }

  /** A window that ended with nothing recognized adds "" in front of the texts of the rest
      of the run, and changes neither its outcome nor its last text. */
  lemma OnceSkipsEmpty(o: OnceRun, rest: OnceRun)
    requires o == OnceRun(rest.state, rest.result, [""] + rest.texts)
    requires forall k :: 0 <= k < |rest.texts| - 1 ==> rest.texts[k] == ""
    ensures forall k :: 0 <= k < |o.texts| - 1 ==> o.texts[k] == ""
    ensures LastText(o) == LastText(rest)
  {
    forall k | 0 <= k < |o.texts| - 1
      ensures o.texts[k] == ""
    {
      if k > 0 {
        assert o.texts[k] == rest.texts[k - 1];
      }
    }
  }

  /** Everything `listen_once` promises, from the lemmas above. */
  lemma OnceOutcome(e: Env, s: Snapshot, clock: int)
    requires Started(e, s) && s.recognizedText == ""
    ensures var o := OnceFrom(e, s, clock);
      && (forall k :: 0 <= k < |o.texts| - 1 ==> o.texts[k] == "")
      && (o.result.None? ==> o.state.pos == |e.ticks| && o.state.recognizedText == "" && LastText(o) == "")
      && (o.result.Some? ==>
            && o.texts != [] && LastText(o) != "" && o.result.value == Strip(LastText(o)) == o.state.recognizedText
            && (o.result.value != [] ==> o.result.value[0] !in Whitespace && o.result.value[|o.result.value| - 1] !in Whitespace))
      && HeardSince(e.services, s, o.state.(recognizedText := LastText(o)))
  {
    var o := OnceFrom(e, s, clock);
    OnceReturnsFirstText(e, s, clock);
    OnceHearsTranscripts(e, s, clock);
    StripEnds(LastText(o));
  }

  /** The text `listen_once` strips and returns is what `speech_recognition` accumulates,
      from an empty `recognized_text`, over the transcripts of the files the run wrote. */
  lemma OnceAccumulates(e: Env, s: Snapshot, clock: int)
    requires Started(e, s) && s.recognizedText == ""
    ensures var o := OnceFrom(e, s, clock);
      && |s.written| <= |o.state.written| && o.state.written[..|s.written|] == s.written
      && LastText(o) == Accumulate("", Transcripts(e.services, o.state.written[|s.written|..]))
  {
    var o := OnceFrom(e, s, clock);
    OnceHearsTranscripts(e, s, clock);
    HeardIsAccumulated(e.services, o.state.written[|s.written|..]);
  }

  /** What "once" mode adds to `recognized_text` for the recordings `recs`, in order: the
      piece of each one's transcript. */
  function Heard(svc: Services, recs: seq<seq<Frame>>): string
    decreases |recs|
  {
    if recs == [] then "" else Piece(svc.stt(recs[0])) + Heard(svc, recs[1..])
  }

  /** The transcripts of the recordings `recs`, in order. */
  function Transcripts(svc: Services, recs: seq<seq<Frame>>): (ts: seq<string>)
    ensures |ts| == |recs| && forall i :: 0 <= i < |recs| ==> ts[i] == svc.stt(recs[i])
    decreases |recs|
  {
    if recs == [] then [] else [svc.stt(recs[0])] + Transcripts(svc, recs[1..])
  }

  /** What "once" mode adds for `recs` is what `speech_recognition`, called on their
      transcripts in order from an empty `recognized_text`, accumulates. */
  lemma {:induction false} HeardIsAccumulated(svc: Services, recs: seq<seq<Frame>>)
    ensures Heard(svc, recs) == Accumulate("", Transcripts(svc, recs))
  {
    HeardIsPieces(svc, recs);
    AccumulateIsPieces("", Transcripts(svc, recs));
  }

  lemma {:induction false} HeardIsPieces(svc: Services, recs: seq<seq<Frame>>)
    ensures Heard(svc, recs) == Pieces(Transcripts(svc, recs))
    decreases |recs|
  {
    if recs != [] {
      HeardIsPieces(svc, recs[1..]);
      var ts := Transcripts(svc, recs);
      assert ts[1..] == Transcripts(svc, recs[1..]);
    }
  }

  lemma {:induction false} HeardConcat(svc: Services, xs: seq<seq<Frame>>, ys: seq<seq<Frame>>)
    ensures Heard(svc, xs + ys) == Heard(svc, xs) + Heard(svc, ys)
    decreases |xs|
  {
    if xs == [] {
      assert xs + ys == ys;
    } else {
      assert (xs + ys)[0] == xs[0] && (xs + ys)[1..] == xs[1..] + ys;
      HeardConcat(svc, xs[1..], ys);
    }
  }

  /** In "once" mode, from `s` to `t` the recorder wrote more files and `recognized_text`
      gained exactly the pieces of their transcripts, in order. */
  ghost predicate HeardSince(svc: Services, s: Snapshot, t: Snapshot)
  {
    && |s.written| <= |t.written| && t.written[..|s.written|] == s.written
    && t.recognizedText == s.recognizedText + Heard(svc, t.written[|s.written|..])
  }

  lemma HeardNothing(svc: Services, s: Snapshot, t: Snapshot)
    requires t.written == s.written && t.recognizedText == s.recognizedText
    ensures HeardSince(svc, s, t)
  {
    assert t.written[|s.written|..] == [];
  }

  lemma HeardTransitive(svc: Services, a: Snapshot, b: Snapshot, c: Snapshot)
    requires HeardSince(svc, a, b) && HeardSince(svc, b, c)
    ensures HeardSince(svc, a, c)
  {
    var xs, ys := b.written[|a.written|..], c.written[|b.written|..];
    PrefixSplit(a.written, b.written, c.written);
    HeardConcat(svc, xs, ys);
    AppendAssoc(a.recognizedText, Heard(svc, xs), Heard(svc, ys));
  }

  lemma AppendAssoc<T>(p: seq<T>, q: seq<T>, r: seq<T>)
    ensures (p + q) + r == p + (q + r)
  {
  }

  /** When `a` starts `b` and `b` starts `c`, `a` starts `c` and what follows it in `c` is
      what follows it in `b`, then what follows `b` in `c`. */
  lemma PrefixSplit<T>(a: seq<T>, b: seq<T>, c: seq<T>)
    requires |a| <= |b| <= |c| && b[..|a|] == a && c[..|b|] == b
    ensures c[..|a|] == a && c[|a|..] == b[|a|..] + c[|b|..]
  {
    assert c[..|a|] == c[..|b|][..|a|];
    assert c == b + c[|b|..];
    assert b == a + b[|a|..];
    assert c == a + (b[|a|..] + c[|b|..]);
  }

  lemma HeardOneFile(svc: Services, s: Snapshot, rec: seq<Frame>, duration: int)
    ensures HeardSince(svc, s, Transcribed(svc, Once, s, rec, duration))
  {
    var t := Transcribed(svc, Once, s, rec, duration);
    assert t.written[|s.written|..] == [rec];
    assert Heard(svc, [rec]) == Piece(svc.stt(rec)) + Heard(svc, []);
    SpeechRecognitionAppends(s.recognizedText, svc.stt(rec));
  }

  lemma HeardStep(e: Env, s: Snapshot)
    requires Started(e, s) && s.pos < |e.ticks|
    ensures HeardSince(e.services, s, Stepped(e, Once, s))
  {
    var tick := e.ticks[s.pos];
    var s1 := s.(pos := s.pos + 1);
    if Starts(e.config, tick.frame) {
      var r := e.record(tick.time, s1.prevInput, e.ticks[s1.pos..]);
      var s2 := s1.(pos := s1.pos + r.read, prevInput := []);
      HeardOneFile(e.services, s2, r.frames, r.duration);
    } else {
      HeardNothing(e.services, s, Stepped(e, Once, s));
    }
  }

  lemma {:induction false} HeardWindow(e: Env, s: Snapshot, current: int, end: int)
    requires Started(e, s)
    ensures HeardSince(e.services, s, WindowFrom(e, Once, s, current, end).state)
    decreases |e.ticks| - s.pos
  {
    if current <= end && s.pos < |e.ticks| {
      var tick := e.ticks[s.pos];
      var onset := Starts(e.config, tick.frame);
      var next := Stepped(e, Once, s);
      HeardStep(e, s);
      HeardWindow(e, next, if onset then current else tick.time, if onset then tick.time + e.config.finalSilence else end);
      HeardTransitive(e.services, s, next, WindowFrom(e, Once, s, current, end).state);
    } else {
      HeardNothing(e.services, s, s);
    }
  }

  /** Over a `listen_once` run, `recognized_text` before the final strip is exactly the
      pieces of the transcripts of every file the run wrote: the windows that heard nothing
      contributed nothing. */
  lemma {:induction false} OnceHearsTranscripts(e: Env, s: Snapshot, clock: int)
    requires Started(e, s) && s.recognizedText == ""
    ensures var o := OnceFrom(e, s, clock);
      HeardSince(e.services, s, o.state.(recognizedText := LastText(o)))
    decreases |e.ticks| - s.pos
  {
    if s.pos < |e.ticks| {
      var w := OnceWindow(e, s, clock);
      HeardOnceWindow(e, s, clock);
      if w.recognizedText == "" {
        var c := e.ticks[w.pos - 1].time;
        var rest := OnceFrom(e, w, c);
        OnceGoesOn(e, s, clock, w);
        OnceHearsTranscripts(e, w, c);
        LastTextSkipsEmpty(OnceFrom(e, s, clock), rest);
        HeardTransitive(e.services, s, w, rest.state.(recognizedText := LastText(rest)));
      } else {
        OnceReturns(e, s, clock, w);
      }
    } else {
      HeardNothing(e.services, s, s);
    }
  }

  lemma HeardOnceWindow(e: Env, s: Snapshot, clock: int)
    requires Started(e, s) && s.pos < |e.ticks|
    ensures HeardSince(e.services, s, OnceWindow(e, s, clock))
  {
    HeardWindow(e, s, clock, clock + e.config.finalSilence);
  }

  lemma LastTextSkipsEmpty(o: OnceRun, rest: OnceRun)
    requires o == OnceRun(rest.state, rest.result, [""] + rest.texts)
    ensures LastText(o) == LastText(rest)
  {
  }
}

/** The `Recorder` class: the microphone loop that waits for speech, records a segment with
    its pre-roll, and hands each segment to the transcription services. The microphone is a
    finite stream of timed frames the object consumes; the speech and identification services
    are given as functions of the recorded audio, and a transcription finishes before the
    loop reads the next frame. */
module Microphone {
  import opened Wrappers
  import opened Text
  import opened EnergyGate
  import opened PreRoll
  import opened Segmenter
  import opened Profiles
  import opened Speaker
  import opened Transcript
  import Protocol
  import opened Listening

  /** The constants of `Recorder.py`, in milliseconds: threshold 40, one second of split
      silence, two seconds of final silence, the 30 s cap and 20 pre-roll chunks. */
  const Settings: Config := Config(40, VoicedGate(40), OnsetGate(40), 1000, 2000, Some(30000), MaxChunks)

  class Recorder {
    const config: Config
    const services: Services
    /** The frames the microphone will deliver, and how many have been read. */
    const ticks: seq<Tick>
    /** `record`, as a function of its start time, its pre-roll and the frames still to
        come: `Segmenter.Record` under `config`, the function the reading loop
        `ReadSegment` computes. */
    const recorder: (int, seq<Frame>, seq<Tick>) -> Recording
    var pos: nat
    var prevInput: seq<Frame>
    var turn: Turn
    var recognizedText: string
    var mode: Mode
    /** The audio of every wav file written, in order. */
    var written: seq<seq<Frame>>

    /** What does not change while the recorder runs. */
    function Setting(): Env
    {
      Env(config, services, ticks, recorder)
    }

    /** The fields the listen loops change. */
    function Snap(): Snapshot
      reads this
    {
      Snapshot(pos, prevInput, turn, recognizedText, written)
    }

    ghost predicate Valid()
      reads this
    {
      Started(Setting(), Snap())
    }

    constructor (stream: seq<Tick>, services: Services)
      ensures Valid()
      ensures config == Settings && Calibrated(config) && recorder == SegmentRecorder(config)
      ensures this.services == services && ticks == stream
      ensures pos == 0 && prevInput == [] && turn == [] && recognizedText == ""
      ensures mode == Continuous && written == []
    {
      config := Settings;
      this.services := services;
      ticks := stream;
      recorder := SegmentRecorder(Settings);
      SegmentRecorderReadsWithin(Settings);
      pos := 0;
      prevInput := [];
      turn := [];
      recognizedText := "";
      mode := Continuous;
      written := [];
    }

    /** A silent frame goes into the pre-roll, which keeps the latest `max_chunks` frames. */
    method PushPreRoll(frame: Frame)
      requires Valid()
      modifies this
      ensures Valid()
      ensures prevInput == Push(old(prevInput), frame, config.maxChunks)
      ensures prevInput == Latest(old(prevInput) + [frame], config.maxChunks)
      ensures pos == old(pos) && turn == old(turn) && recognizedText == old(recognizedText)
      ensures mode == old(mode) && written == old(written)
    {
      PushKeepsLatest(prevInput, frame, config.maxChunks);
      prevInput := prevInput + [frame];
      if |prevInput| > config.maxChunks {
        prevInput := prevInput[1..];
      }
    }

    /** `write`: the segment is saved and transcribed by the thread the mode selects. */
    method Write(recording: seq<Frame>, duration: int)
      modifies this
      ensures Snap() == Transcribed(services, mode, old(Snap()), recording, duration)
      ensures mode == old(mode)
      ensures |old(turn)| <= |turn| && turn[..|old(turn)|] == old(turn)
    {
      TurnExtends(turn, services.stt(recording), services.profiles, services.identify(recording), duration);
      written := written + [recording];
      if mode == Continuous {
        turn := SpeechAndSpeakerRecognition(turn, services.stt(recording), services.profiles,
                                            services.identify(recording), duration);
      } else {
        recognizedText := SpeechRecognition(recognizedText, services.stt(recording));
      }
    }

    /** `record`, started at time `t0`: the segment is consumed from the microphone, the
        pre-roll is emptied, and the segment is written. */
    method Record(t0: int)
      requires Valid()
      modifies this
      ensures Valid() && mode == old(mode)
      ensures Snap() == Recorded(Setting(), mode, old(Snap()), t0)
    {
      var r := recorder(t0, prevInput, ticks[pos..]);
      pos := pos + r.read;
      prevInput := [];
      Write(r.frames, r.duration);
    }

    /** One pass of a listen loop's body: read a frame; above the threshold
        (`config.onset`, which is `rms(frame) > rms_threshold`) it starts a recording at its
        time, otherwise it goes into the pre-roll. */
    method ReadFrame() returns (tick: Tick, onset: bool)
      requires Valid() && pos < |ticks|
      modifies this
      ensures Valid() && mode == old(mode)
      ensures tick == ticks[old(pos)] && onset == Starts(config, tick.frame)
      ensures Snap() == Stepped(Setting(), mode, old(Snap()))
    {
      tick := ticks[pos];
      pos := pos + 1;
      onset := config.onset(tick.frame);
      if onset {
        Record(tick.time);
      } else {
        PushPreRoll(tick.frame);
      }
    }

    /** A window of the fixed-silence loops (`listen_continuous`, `listen_wait` outside wake
        mode, `listen_once`), opened at clock time `now`. It returns the loop's `end` and
        `current` when it left the loop and, as a ghost, the positions of the frames the loop
        itself read. */
    method ListenWindow(now: int) returns (deadline: int, clock: int, ghost seen: seq<nat>)
      requires Valid()
      modifies this
      ensures Valid() && mode == old(mode)
      ensures var w := WindowFrom(Setting(), mode, old(Snap()), now, now + config.finalSilence);
        Snap() == w.state && deadline == w.deadline && clock == w.clock
      ensures seen == Seen(Setting(), mode, old(Snap()), now, now + config.finalSilence)
      ensures TurnKept(mode, old(Snap()), Snap())
    {
      ghost var e := Setting();
      ghost var s0 := Snap();
      var end0 := now + config.finalSilence;
      var current := now;
      var end := end0;
      seen := [];
      while current <= end && pos < |ticks|
        invariant Valid() && mode == old(mode)
        invariant WindowFrom(e, mode, Snap(), current, end) == WindowFrom(e, mode, s0, now, end0)
        invariant Seen(e, mode, s0, now, end0) == seen + Seen(e, mode, Snap(), current, end)
        decreases |ticks| - pos
      {
        ghost var p := pos;
        WindowStep(e, mode, Snap(), current, end);
        var tick, onset := ReadFrame();
        if onset {
          end := tick.time + config.finalSilence;
        } else {
          current := tick.time;
        }
        AppendAssoc(seen, [p], Seen(e, mode, Snap(), current, end));
        seen := seen + [p];
      }
      assert seen + [] == seen;
      deadline := end;
      clock := current;
      WindowKeepsTurn(e, mode, s0, now, end0);
    }

    /** The wake-mode window of `listen_wait`: recordings go on, with no deadline, until the
        turn text holds an exit keyword (or the microphone has nothing more). `before` is the
        state the last frame was read from. */
    method WakeWindow() returns (ghost before: Snapshot)
      requires Valid()
      modifies this
      ensures Valid() && mode == old(mode)
      ensures Snap() == WakeFrom(Setting(), mode, old(Snap()))
      ensures ContainsAny(TurnText(old(turn)), Protocol.ExitKeywords) ==> Snap() == old(Snap())
      ensures ContainsAny(TurnText(turn), Protocol.ExitKeywords) || pos == |ticks|
      ensures old(pos) < pos ==>
        && Started(Setting(), before) && before.pos < |ticks|
        && !ContainsAny(TurnText(before.turn), Protocol.ExitKeywords)
        && Snap() == Stepped(Setting(), mode, before)
      ensures TurnKept(mode, old(Snap()), Snap())
    {
      ghost var e := Setting();
      ghost var w0 := WakeFrom(e, mode, Snap());
      WakeKeepsTurn(e, mode, Snap());
      before := Snap();
      while !ContainsAny(TurnText(turn), Protocol.ExitKeywords) && pos < |ticks|
        invariant Valid() && mode == old(mode) && old(pos) <= pos
        invariant WakeFrom(e, mode, Snap()) == w0
        invariant old(pos) < pos ==>
          && Started(e, before) && before.pos < |ticks|
          && !ContainsAny(TurnText(before.turn), Protocol.ExitKeywords)
          && Snap() == Stepped(e, mode, before)
        decreases |ticks| - pos
      {
        before := Snap();
        var _, _ := ReadFrame();
      }
    }

    /** One window of `listen_once`'s loop, opened at `clock`; `heard` tells whether it
        ended with something recognized. */
    method OnceWindowStep(clock: int) returns (heard: bool)
      requires Valid() && mode == Once && pos < |ticks|
      modifies this
      ensures Valid() && mode == Once
      ensures Snap() == OnceWindow(Setting(), old(Snap()), clock)
      ensures heard <==> recognizedText != ""
    {
      var _, _, _ := ListenWindow(clock);
      heard := recognizedText != "";
    }

    /** `listen_once`: switches to "once" mode, clears `recognized_text`, and runs windows
        until one ends with something recognized, which is returned stripped. `None` means
        the microphone ran out first. `texts` is `recognized_text` at the end of each window. */
    method ListenOnce(now: int) returns (r: Option<string>, ghost texts: seq<string>)
      requires Valid()
      modifies this
      ensures Valid() && mode == Once && turn == old(turn)
      ensures var o := OnceFrom(Setting(), old(Snap()).(recognizedText := ""), now);
        Snap() == o.state && r == o.result && texts == o.texts
    {
      mode := Once;
      recognizedText := "";
      OnceKeepsTurn(Setting(), Snap(), now);
      r, texts := OnceWindows(now);
    }

    /** The loop of `listen_once`, from a cleared `recognized_text`. */
    method OnceWindows(now: int) returns (r: Option<string>, ghost texts: seq<string>)
      requires Valid() && mode == Once && recognizedText == ""
      modifies this
      ensures Valid() && mode == Once
      ensures var o := OnceFrom(Setting(), old(Snap()), now);
        Snap() == o.state && r == o.result && texts == o.texts
    {
      ghost var e := Setting();
      ghost var o0 := OnceFrom(e, Snap(), now);
      var clock := now;
      texts := [];
      while pos < |ticks|
        invariant Valid() && mode == Once && recognizedText == ""
        invariant var o := OnceFrom(e, Snap(), clock);
          o0 == OnceRun(o.state, o.result, texts + o.texts)
        decreases |ticks| - pos
      {
        ghost var s := Snap();
        var heard := OnceWindowStep(clock);
        ghost var w := Snap();
        if heard {
          OnceEnds(e, s, clock, w, o0, texts);
          recognizedText := Strip(recognizedText);
          r := Some(recognizedText);
          texts := texts + [w.recognizedText];
          return;
        }
        OnceContinues(e, s, clock, w, o0, texts);
        clock := ticks[pos - 1].time;
        texts := texts + [""];
      }
      assert texts + [] == texts;
      r := None;
    }
  }
}

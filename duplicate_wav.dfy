/** The duplicate-wav variant of the recorder: before identifying the speaker, a clip shorter
    than four seconds is repeated until it is long enough, and the transcript is appended to
    `string_to_send` as " speaker:text". */
module DuplicateWav {
  import opened Wrappers
  import opened Profiles
  import opened Speaker
  import Segmenter
  import PreRoll

  /** The script's recording constants, in milliseconds: threshold 30, one second of split
      silence, three seconds of final silence, and no cap on a recording. */
  const Settings: Segmenter.Config := Segmenter.Config(30, Segmenter.VoicedGate(30), Segmenter.OnsetGate(30), 1000, 3000, None, PreRoll.MaxChunks)

  /** `RATE` of this script. */
  const Rate: nat := 16000

  /** `wav_filename[:-4] + "d.wav"` (Python's slice gives "" on names shorter than 4). */
  function ExtendedName(wav: string): string
  {
    (if |wav| >= 4 then wav[..|wav| - 4] else "") + "d.wav"
  }

  /** For a ".wav" name the extended file sits beside the original and is a different file. */
  lemma ExtendedNameOfWav(stem: string)
    ensures ExtendedName(stem + ".wav") == stem + "d.wav"
    ensures ExtendedName(stem + ".wav") != stem + ".wav"
  {
    assert (stem + ".wav")[..|stem|] == stem;
    assert |stem + "d.wav"| != |stem + ".wav"|;
  }

  /** `k` copies of a clip, one after the other. */
  function Repeat<T>(clip: seq<T>, k: nat): (r: seq<T>)
    ensures |r| == k * |clip|
  {
    if k == 0 then [] else Repeat(clip, k - 1) + clip
  }

  /** The number of copies the loop ends with: the first `k` from `from` on whose total
      duration is at least four seconds (`n` frames per copy, `rate` frames per second). */
  function CopiesFrom(n: nat, rate: nat, from: nat): (k: nat)
    requires n > 0
    ensures k >= from && k * n >= 4 * rate
    ensures forall j :: from <= j < k ==> j * n < 4 * rate
    decreases 4 * rate - from * n
  {
    if from * n >= 4 * rate then from else CopiesFrom(n, rate, from + 1)
  }

  /** A clip that is already four seconds long is not extended; a shorter one ends with the
      smallest number of copies, at least two, that reaches four seconds. */
  lemma CopiesMinimal(n: nat, rate: nat)
    requires n > 0 && n < 4 * rate
    ensures var k := CopiesFrom(n, rate, 2);
      k >= 2 && k * n >= 4 * rate && (k - 1) * n < 4 * rate
  {
    var k := CopiesFrom(n, rate, 2);
    if k > 2 {
      assert (k - 1) * n < 4 * rate;
    } else {
      assert (k - 1) * n == n;
    }
  }

  /** The `while duration_seconds < 4.0` loop of `microsoft_sender` over the clip's frames:
      the first pass joins the original to itself, each later pass appends one more copy of
      the original to the extended file. `None` means the extended file was never written.
      `getnframes() / getframerate() < 4.0` is `frames < 4 * rate`. A clip of zero frames
      would loop forever; `record` always reads at least one frame. */
  method ExtendClip<T>(clip: seq<T>, rate: nat) returns (extended: Option<seq<T>>)
    requires |clip| > 0
    ensures |clip| >= 4 * rate ==> extended == None
    ensures |clip| < 4 * rate ==> extended == Some(Repeat(clip, CopiesFrom(|clip|, rate, 2)))
  {
    extended := None;
    var frames := |clip|;
    ghost var copies: nat := 1;
    while frames < 4 * rate
      invariant copies >= 1 && frames == copies * |clip|
      invariant copies == 1 <==> extended == None
      invariant extended.Some? ==> extended.value == Repeat(clip, copies)
      invariant forall j :: 1 <= j < copies ==> j * |clip| < 4 * rate
      decreases 4 * rate - frames
    {
      var first := if extended.Some? then extended.value else clip;
      extended := Some(first + clip);
      copies := copies + 1;
      frames := |extended.value|;
    }
    if extended.Some? {
      assert copies >= 2 && copies * |clip| >= 4 * rate;
      CopiesEqual(|clip|, rate, copies);
    }
  }

  lemma CopiesEqual(n: nat, rate: nat, k: nat)
    requires n > 0 && k >= 2 && k * n >= 4 * rate
    requires forall j :: 1 <= j < k ==> j * n < 4 * rate
    ensures CopiesFrom(n, rate, 2) == k
  {
    var c := CopiesFrom(n, rate, 2);
    assert c < k ==> c * n < 4 * rate;
    assert k < c ==> k * n < 4 * rate;
  }

  /** The file `microsoft_sender` hands to `identify_speaker` as written: the extended name
      in both branches of the `os.path.exists` test. */
  function IdentifyFileAsWritten(wav: string, extended: bool): string
  {
    if extended then ExtendedName(wav) else ExtendedName(wav)
  }

  /** The files that exist when identification starts: the recording, and the extended copy
      if the loop wrote one. */
  predicate FileExists(wav: string, extended: bool, file: string)
  {
    file == wav || (extended && file == ExtendedName(wav))
  }

  /** As written, a clip of four seconds or more (no extended file) sends identification to a
      file that does not exist, so `open` raises and the transcript is lost. */
  lemma LongClipIdentifiesMissingFile(stem: string)
    ensures !FileExists(stem + ".wav", false, IdentifyFileAsWritten(stem + ".wav", false))
  {
    ExtendedNameOfWav(stem);
  }

  /** The evidently intended choice: the extended file when one was written, the recording
      otherwise. */
  function IdentifyFile(wav: string, extended: bool): string
  {
    if extended then ExtendedName(wav) else wav
  }

  /** The corrected choice always names a file that exists. */
  lemma IdentifyFileExists(wav: string, extended: bool)
    ensures FileExists(wav, extended, IdentifyFile(wav, extended))
  {
  }

  /** `prof_dict[ident_speaker_id]` raises `KeyError` on an unknown id. */
  datatype SenderError = KeyError(id: string)

  /** The speaker name as written: "Unknown" only for a falsy (empty) id, otherwise a
      dictionary lookup that fails on ids the registry does not hold. */
  function SpeakerNameAsWritten(id: string, profiles: ProfileDict): Result<string, SenderError>
  {
    if id == "" then Ok("Unknown")
    else match Lookup(profiles, id)
      case Some(name) => Ok(name)
      case None => Err(KeyError(id))
  }

  /** `identify_speaker` reports failure with the sentinel id, which is a non-empty string:
      as written, a failed identification raises `KeyError` instead of naming the speaker
      "Unknown". */
  lemma FailedIdentificationRaises(profiles: ProfileDict, reply: IdentifyReply)
    requires Sentinel !in Keys(profiles)
    requires reply.ranking == []
    ensures SpeakerNameAsWritten(ParseIdentify(reply).id, profiles) == Err(KeyError(Sentinel))
  {
  }

  /** The evidently intended speaker name: the registered name, or "Unknown" for the
      sentinel and for any id the registry does not hold. */
  function SpeakerName(id: string, profiles: ProfileDict): (name: string)
    ensures id !in Keys(profiles) ==> name == "Unknown"
    ensures Lookup(profiles, id).Some? ==> name == Lookup(profiles, id).value
    ensures name == "Unknown" || name in Names(profiles)
  {
    LookupInNames(profiles, id);
    match Lookup(profiles, id)
    case Some(name) => name
    case None => "Unknown"
  }

  /** The fragment `microsoft_sender` appends. */
  function Fragment(name: string, text: string): string
  {
    " " + name + ":" + text
  }

  /** The audio sent for identification: the clip repeated to four seconds when shorter. */
  function IdentifyAudio(clip: seq<int>): (audio: seq<int>)
    requires |clip| > 0
    ensures |audio| >= 4 * Rate
    ensures |clip| >= 4 * Rate ==> audio == clip
  {
    if |clip| < 4 * Rate then Repeat(clip, CopiesFrom(|clip|, Rate, 2)) else clip
  }

  /** `microsoft_sender` with the corrected identification: nothing is appended unless the
      transcript and the registry are both non-empty; otherwise " name:text" is appended.
      `clip` is the recording's audio and `identify` the service's reply for the audio it
      is given. */
  function MicrosoftSender(s: string, text: string, profiles: ProfileDict, clip: seq<int>,
                           identify: seq<int> -> IdentifyReply): string
    requires |clip| > 0
  {
    if text != "" && profiles != [] then
      s + Fragment(SpeakerName(ParseIdentify(identify(IdentifyAudio(clip))).id, profiles), text)
    else s
  }

  /** `string_to_send` grows only by one fragment, and only when there was text and a registry;
      the fragment carries the name registered for the id identified in the clip's audio, or
      "Unknown" when the registry does not hold that id. */
  lemma SenderAppendsFragment(s: string, text: string, profiles: ProfileDict, clip: seq<int>,
                              identify: seq<int> -> IdentifyReply)
    requires |clip| > 0
    ensures text == "" || profiles == [] ==> MicrosoftSender(s, text, profiles, clip, identify) == s
    ensures text != "" && profiles != [] ==>
      var id := ParseIdentify(identify(IdentifyAudio(clip))).id;
      var name := SpeakerName(id, profiles);
      && MicrosoftSender(s, text, profiles, clip, identify) == s + Fragment(name, text)
      && (Lookup(profiles, id).Some? ==> name == Lookup(profiles, id).value)
      && (id !in Keys(profiles) ==> name == "Unknown")
      && (name == "Unknown" || name in Names(profiles))
  {
    if text != "" && profiles != [] {
      var name := SpeakerName(ParseIdentify(identify(IdentifyAudio(clip))).id, profiles);
      assert MicrosoftSender(s, text, profiles, clip, identify) == s + Fragment(name, text);
    }
  }

  /** `microsoft_sender` as written, where an exception ends the thread before anything is
      appended: a clip of four seconds or more is identified from the extended file, which
      was never written, and an id the registry does not hold fails the dictionary lookup. */
  function MicrosoftSenderAsWritten(s: string, text: string, profiles: ProfileDict, clip: seq<int>,
                                    identify: seq<int> -> IdentifyReply): string
    requires |clip| > 0
  {
    if text != "" && profiles != [] then
      if |clip| >= 4 * Rate then s
      else match SpeakerNameAsWritten(ParseIdentify(identify(IdentifyAudio(clip))).id, profiles)
        case Ok(name) => s + Fragment(name, text)
        case Err(_) => s
    else s
  }

  /** As written, `string_to_send` is left unchanged for a long clip and for an unregistered
      id, where the corrected sender appends a fragment; otherwise the two agree (unless the
      registry holds the empty id, which only the corrected sender looks up). */
  lemma SenderAsWrittenDropsFragment(s: string, text: string, profiles: ProfileDict, clip: seq<int>,
                                     identify: seq<int> -> IdentifyReply)
    requires |clip| > 0
    ensures var id := ParseIdentify(identify(IdentifyAudio(clip))).id;
      var dropped := text != "" && profiles != [] && (|clip| >= 4 * Rate || (id != "" && id !in Keys(profiles)));
      && (dropped ==> MicrosoftSenderAsWritten(s, text, profiles, clip, identify) == s
                      != MicrosoftSender(s, text, profiles, clip, identify))
      && (!dropped && (id == "" ==> "" !in Keys(profiles)) ==>
            MicrosoftSenderAsWritten(s, text, profiles, clip, identify)
            == MicrosoftSender(s, text, profiles, clip, identify))
  {
    var id := ParseIdentify(identify(IdentifyAudio(clip))).id;
    if text != "" && profiles != [] {
      var name := SpeakerName(id, profiles);
      var corrected := s + Fragment(name, text);
      assert MicrosoftSender(s, text, profiles, clip, identify) == corrected;
      assert |corrected| > |s|;
      if |clip| < 4 * Rate {
        if id == "" {
          if "" !in Keys(profiles) {
            assert name == "Unknown";
          }
        } else if id in Keys(profiles) {
          assert SpeakerNameAsWritten(id, profiles) == Ok(name);
        }
      }
    }
  }
}

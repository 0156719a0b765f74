/** The single-speaker Microsoft variant of the recorder: `transcribe_file` overwrites
    `string_to_send`, and the command line chooses the recognition language. */
module SingleMicrosoft {
  import opened Wrappers
  import Segmenter
  import PreRoll

  /** The script's recording constants, in milliseconds: threshold 60, half a second of split
      silence, one second of final silence, the 30 s cap. */
  const Settings: Segmenter.Config := Segmenter.Config(60, Segmenter.VoicedGate(60), Segmenter.OnsetGate(60), 500, 1000, Some(30000), PreRoll.MaxChunks)

  /** `transcribe_file`: a non-empty transcript replaces `string_to_send`; an empty one leaves it. */
  function TranscribeFile(s: string, text: string): string
  {
    if text != "" then text else s
  }

  /** Several transcriptions finishing one after the other. */
  function TranscribeAll(s: string, texts: seq<string>): string
    decreases |texts|
  {
    if texts == [] then s else TranscribeAll(TranscribeFile(s, texts[0]), texts[1..])
  }

  /** Whether some transcript in `texts` is not empty. */
  predicate AnyText(texts: seq<string>)
  {
    exists i :: 0 <= i < |texts| && texts[i] != ""
  }

  /** The last finished transcription that produced text wins: the result is the last non-empty
      transcript, or the old value when every transcript was empty. */
  lemma {:induction false} LastTranscriptWins(s: string, texts: seq<string>)
    ensures !AnyText(texts) ==> TranscribeAll(s, texts) == s
    ensures AnyText(texts) ==>
              exists i :: (0 <= i < |texts| && texts[i] != "" && TranscribeAll(s, texts) == texts[i] &&
                           forall j :: i < j < |texts| ==> texts[j] == "")
    decreases |texts|
  {
    if texts != [] {
      var s' := TranscribeFile(s, texts[0]);
      LastTranscriptWins(s', texts[1..]);
      if AnyText(texts[1..]) {
        var i :| 0 <= i < |texts[1..]| && texts[1..][i] != "" && TranscribeAll(s', texts[1..]) == texts[1..][i] &&
                 forall j :: i < j < |texts[1..]| ==> texts[1..][j] == "";
        assert texts[i + 1] != "" && forall j :: i + 1 < j < |texts| ==> texts[j] == texts[1..][j - 1];
      } else if texts[0] != "" {
        assert forall j :: 0 < j < |texts| ==> texts[j] == texts[1..][j - 1];
      } else {
        assert forall j :: 0 < j < |texts| ==> texts[j] == texts[1..][j - 1];
      }
    }
  }

  /** The `--language` handling: "it" selects Italian; no argument (or an empty one) and any
      other value select British English. */
  function LanguageCode(arg: Option<string>): (code: string)
    ensures code == "it-IT" || code == "en-GB"
    ensures code == "it-IT" <==> arg == Some("it")
  {
    if arg.None? || arg.value == "" then "en-GB"
    else if arg.value == "it" then "it-IT"
    else "en-GB"
  }
}

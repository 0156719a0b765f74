/** The Google variant of the recorder: `google_sender` picks one transcript from the
    recognition response and `transcribe_file` appends it to `string_to_send`. */
module Google {
  import opened Wrappers
  import opened Text
  import Segmenter
  import PreRoll

  /** The script's recording constants, in milliseconds: threshold 60, half a second of split
      silence, one second of final silence, the 30 s cap. */
  const Settings: Segmenter.Config := Segmenter.Config(60, Segmenter.VoicedGate(60), Segmenter.OnsetGate(60), 500, 1000, Some(30000), PreRoll.MaxChunks)

  /** The transcripts of the alternatives of each result of `client.recognize`, in order. */
  datatype RecognizeResponse = RecognizeResponse(results: seq<seq<string>>)

  /** `result.alternatives[0]` on a result without alternatives raises `IndexError`. */
  datatype SenderError = NoAlternative

  /** `google_sender`: the first alternative of the first result, `None` without results. */
  function GoogleSender(r: RecognizeResponse): Result<Option<string>, SenderError>
  {
    if r.results == [] then Ok(None)
    else if r.results[0] == [] then Err(NoAlternative)
    else Ok(Some(r.results[0][0]))
  }

  /** Only the first alternative of the first result matters: later results and later
      alternatives never change what `google_sender` returns. */
  lemma SenderUsesFirstAlternativeOnly(best: string, others: seq<string>, later: seq<seq<string>>)
    ensures GoogleSender(RecognizeResponse([[best] + others] + later)) == Ok(Some(best))
    ensures GoogleSender(RecognizeResponse([])) == Ok(None)
  {
  }

  /** A Python string result is truthy when it is present and not empty. */
  predicate Truthy(result: Option<string>) { result.Some? && result.value != "" }

  /** `transcribe_file` once `google_sender` returned: `string_to_send + " " + result` when
      the result is truthy, otherwise `string_to_send` unchanged. */
  function TranscribeFile(s: string, result: Option<string>): string
  {
    if Truthy(result) then s + " " + result.value else s
  }

  /** `transcribe_file` given the service's response; a raised `IndexError` ends the thread
      before `string_to_send` is touched. */
  function TranscribeResponse(s: string, r: RecognizeResponse): string
  {
    match GoogleSender(r)
    case Ok(result) => TranscribeFile(s, result)
    case Err(_) => s
  }

  /** Several transcriptions finishing one after the other. */
  function TranscribeAll(s: string, results: seq<Option<string>>): string
    decreases |results|
  {
    if results == [] then s else TranscribeAll(TranscribeFile(s, results[0]), results[1..])
  }

  /** The text the truthy results contribute: each one preceded by a space, in order. */
  function Spaced(results: seq<Option<string>>): string
  {
    if results == [] then ""
    else (if Truthy(results[0]) then " " + results[0].value else "") + Spaced(results[1..])
  }

  /** `string_to_send` only ever grows: after a run of transcriptions it is the old value
      followed by every truthy result, in completion order, each after a space. */
  lemma {:induction false} TranscribeAllAppends(s: string, results: seq<Option<string>>)
    ensures TranscribeAll(s, results) == s + Spaced(results)
    decreases |results|
  {
    if results != [] {
      TranscribeAllAppends(TranscribeFile(s, results[0]), results[1..]);
      if Truthy(results[0]) {
        assert s + " " + results[0].value + Spaced(results[1..]) == s + (" " + results[0].value + Spaced(results[1..]));
      } else {
        assert "" + Spaced(results[1..]) == Spaced(results[1..]);
      }
    }
  }

  /** A result that is missing or empty leaves `string_to_send` unchanged. */
  lemma FalsyResultChangesNothing(s: string, result: Option<string>)
    requires !Truthy(result)
    ensures TranscribeFile(s, result) == s
  {
  }
}

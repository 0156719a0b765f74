/** What `Recorder.py` does with a transcript: normalisation (punctuation removed, lower
    case, at most 512 characters) and accumulation, either into `recognized_text`
    (`speech_recognition`) or as a piece of the dialogue turn
    (`speech_and_speaker_recognition`). The speech and identification services are inputs. */
module Transcript {
  import opened Wrappers
  import opened Text
  import opened Profiles
  import opened Speaker

  const MaxLength: nat := 512

  /** A turn piece `TurnPiece(speaker_id, sentence, wav_duration)`. */
  datatype TurnPiece = TurnPiece(speaker: string, text: string, duration: int)

  /** The dialogue turn, as an append-only sequence of pieces in call order. */
  type Turn = seq<TurnPiece>

  function Texts(t: Turn): (r: seq<string>)
    ensures |r| == |t|
    ensures forall i :: 0 <= i < |t| ==> r[i] == t[i].text
  {
    if t == [] then [] else [t[0].text] + Texts(t[1..])
  }

  /** `dialogue_turn.get_text()`: the piece texts joined by single spaces. */
  function TurnText(t: Turn): string
  {
    Join(Texts(t), " ")
  }

  /** `text.translate(str.maketrans('', '', string.punctuation)).lower()`, then `[:512]`. */
  function Normalise(text: string): string
  {
    var s := Lower(RemovePunctuation(text));
    if |s| > MaxLength then s[..MaxLength] else s
  }

  /** The normalised text is the lower-cased text without punctuation, cut to exactly
      `MaxLength` characters when it is longer; it holds no punctuation and no capital. */
  lemma NormaliseShape(text: string)
    ensures var s, r := Lower(RemovePunctuation(text)), Normalise(text);
      && (|s| <= MaxLength ==> r == s)
      && (|s| > MaxLength ==> |r| == MaxLength && r == s[..MaxLength])
      && (forall i :: 0 <= i < |r| ==> !IsPunctuation(r[i]) && !IsUpper(r[i]))
  {
    RemovePunctuationShape(text);
    LowerAt(RemovePunctuation(text));
  }

  lemma LowerOfLower(s: string)
    requires forall i :: 0 <= i < |s| ==> !IsUpper(s[i])
    ensures Lower(s) == s
  {
    LowerAt(s);
  }

  /** Normalising twice changes nothing: normalised text is a fixed point. */
  lemma NormaliseIdempotent(text: string)
    ensures Normalise(Normalise(text)) == Normalise(text)
  {
    var r := Normalise(text);
    NormaliseShape(text);
    RemovePunctuationShape(r);
    LowerOfLower(r);
    LowerAt(r);
  }

  /** `speech_recognition`: `recognized_text + " " + sentence` when the service returned text and
      the normalised sentence is not empty, otherwise unchanged. */
  function SpeechRecognition(recognized: string, result: string): string
  {
    if result != "" && Normalise(result) != "" then recognized + " " + Normalise(result) else recognized
  }

  /** The speaker id `speech_and_speaker_recognition` attaches: the sentinel unless the registry is
      non-empty (so identification ran) and the reply passed the threshold. */
  function SpeakerOf(profiles: ProfileDict, reply: IdentifyReply): string
  {
    if profiles != [] then Accept(Sentinel, ParseIdentify(reply)) else Sentinel
  }

  /** `speech_and_speaker_recognition`: appends at most one piece, at the end. */
  function SpeechAndSpeakerRecognition(turn: Turn, result: string, profiles: ProfileDict,
                                       reply: IdentifyReply, duration: int): Turn
  {
    if result != "" && Normalise(result) != "" then
      turn + [TurnPiece(SpeakerOf(profiles, reply), Normalise(result), duration)]
    else turn
  }

  /** What one transcription contributes to `recognized_text`: a space and the normalised
      sentence, or nothing when no sentence is left. */
  function Piece(result: string): (p: string)
    ensures p == "" || (p[0] == ' ' && p[1..] == Normalise(result) != "")
  {
    if Normalise(result) != "" then " " + Normalise(result) else ""
  }

  /** `f(xs[0]) + f(xs[1]) + ...`. */
  function ConcatMap<T>(f: T -> string, xs: seq<T>): string
  {
    if xs == [] then "" else f(xs[0]) + ConcatMap(f, xs[1..])
  }

  /** `step` applied to each element in turn, starting from `init`. */
  function FoldLeft<T>(step: (string, T) -> string, init: string, xs: seq<T>): string
  {
    if xs == [] then init else step(FoldLeft(step, init, xs[..|xs| - 1]), xs[|xs| - 1])
  }

  lemma {:induction false} ConcatMapAppend<T>(f: T -> string, xs: seq<T>, x: T)
    ensures ConcatMap(f, xs + [x]) == ConcatMap(f, xs) + f(x)
    decreases |xs|
  {
    if xs == [] {
      assert [x][1..] == [];
    } else {
      assert (xs + [x])[1..] == xs[1..] + [x];
      ConcatMapAppend(f, xs[1..], x);
    }
  }

  /** A fold whose every step appends `f` of the element appends them all, in order. */
  lemma {:induction false} FoldOfAppends<T>(step: (string, T) -> string, f: T -> string, init: string, xs: seq<T>)
    requires forall acc, x :: step(acc, x) == acc + f(x)
    ensures FoldLeft(step, init, xs) == init + ConcatMap(f, xs)
    decreases |xs|
  {
    if xs != [] {
      var prefix := xs[..|xs| - 1];
      FoldOfAppends(step, f, init, prefix);
      ConcatMapAppend(f, prefix, xs[|xs| - 1]);
      assert prefix + [xs[|xs| - 1]] == xs;
    }
  }

  /** The pieces of a run of transcriptions, in call order: an independent description of
      what `recognized_text` should gain. */
  function Pieces(results: seq<string>): string
  {
    ConcatMap(Piece, results)
  }

  /** `speech_recognition` called once per result, in order, starting from `recognized`. */
  function Accumulate(recognized: string, results: seq<string>): string
  {
    FoldLeft(SpeechRecognition, recognized, results)
  }

  /** Normalisation turns the empty transcript into the empty sentence. */
  lemma NormaliseEmpty()
    ensures Normalise("") == ""
  {
    assert RemovePunctuation("") == "";
  }

  /** One call of `speech_recognition` appends the result's piece. */
  lemma SpeechRecognitionAppends(recognized: string, result: string)
    ensures SpeechRecognition(recognized, result) == recognized + Piece(result)
  {
    NormaliseEmpty();
  }

  /** Over any run of transcriptions, `recognized_text` grows by exactly the pieces of the
      results, in call order: a space and the normalised sentence for every result that
      leaves one, and nothing for the others. */
  lemma AccumulateIsPieces(recognized: string, results: seq<string>)
    ensures Accumulate(recognized, results) == recognized + Pieces(results)
  {
    forall acc, x ensures SpeechRecognition(acc, x) == acc + Piece(x) {
      SpeechRecognitionAppends(acc, x);
    }
    FoldOfAppends(SpeechRecognition, Piece, recognized, results);
  }

  /** A transcription either leaves the turn alone (no text, or nothing left after
      normalisation) or appends exactly one piece at the end carrying the normalised text, the
      segment's duration and the identified id when the registry is non-empty and the confidence
      passes 0.3, the sentinel otherwise. */
  lemma PieceAppended(turn: Turn, result: string, profiles: ProfileDict, reply: IdentifyReply, duration: int)
    ensures var t := SpeechAndSpeakerRecognition(turn, result, profiles, reply, duration);
      && (t == turn <==> result == "" || Normalise(result) == "")
      && (t != turn ==>
            && |t| == |turn| + 1 && t[..|turn|] == turn
            && t[|turn|].text == Normalise(result) != ""
            && t[|turn|].duration == duration
            && t[|turn|].speaker ==
                 (if profiles != [] && ParseIdentify(reply).confidence > 0.3 then ParseIdentify(reply).id
                  else Sentinel))
  {
    var t := SpeechAndSpeakerRecognition(turn, result, profiles, reply, duration);
    if t != turn {
      assert t[..|turn|] == turn;
    }
  }

  /** The turn only grows at its end. */
  lemma TurnExtends(turn: Turn, result: string, profiles: ProfileDict, reply: IdentifyReply, duration: int)
    ensures var t := SpeechAndSpeakerRecognition(turn, result, profiles, reply, duration);
      |turn| <= |t| && t[..|turn|] == turn
  {
    var t := SpeechAndSpeakerRecognition(turn, result, profiles, reply, duration);
    assert t[..|turn|] == turn;
  }

  /** With an empty registry identification never starts and the speaker is the sentinel. */
  lemma NoProfilesMeansSentinel(reply: IdentifyReply)
    ensures SpeakerOf([], reply) == Sentinel
  {
  }

  /** Appending a piece extends the turn text by a space and the piece's text. */
  lemma {:induction false} TurnTextAppend(t: Turn, p: TurnPiece)
    ensures TurnText(t + [p]) == if t == [] then p.text else TurnText(t) + " " + p.text
    decreases |t|
  {
    if t != [] {
      assert (t + [p])[1..] == t[1..] + [p];
      assert Texts(t + [p]) == [t[0].text] + Texts(t[1..] + [p]);
      if |t| == 1 {
        assert t[1..] == [];
        assert Texts(t + [p]) == [t[0].text, p.text];
        assert Texts(t) == [t[0].text];
        assert [t[0].text, p.text][1..] == [p.text];
        assert Join([t[0].text, p.text], " ") == t[0].text + " " + Join([p.text], " ");
      } else {
        TurnTextAppend(t[1..], p);
      }
    }
  }

  /** A turn built only by transcriptions has empty text exactly when it has no pieces. */
  lemma {:induction false} TurnTextEmpty(t: Turn)
    requires forall i :: 0 <= i < |t| ==> t[i].text != ""
    ensures TurnText(t) == "" <==> t == []
  {
    if |t| >= 2 {
      assert |TurnText(t)| >= |t[0].text| + 1;
    }
  }
}

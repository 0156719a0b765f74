# Microphone services — a Dafny model

The microphone services are a set of Python scripts. Each one reads 16-bit mono audio from a
microphone in 1024-sample chunks and gates every chunk on its RMS energy. A loud chunk opens a
recording that holds up to 20 chunks of pre-roll. The recording ends after a stretch of silence
or, in the interactive recorders, after 30 seconds. The audio is then sent to a
speech-to-text service: Microsoft or Google. The Microsoft recorders can also send it to the
Microsoft speaker-identification service. The transcripts are accumulated and handed to a client
over a TCP socket, whose replies drive a small turn-taking protocol. A separate registration
script creates speaker profiles and keeps the map from profile id to name.

This project models that core and proves properties of the model:

| file | module | what it models |
|---|---|---|
| `wrappers.dfy` | `Wrappers` | `Option` and `Result` |
| `text.dfy` | `Text`, `TextSplit` | ASCII `lower`, `strip`, `translate` over `string.punctuation`, `in`, `join`, `split` |
| `energy_gate.dfy` | `EnergyGate` | `rms`: decoding a chunk and the exact integer form of `rms >= T` / `rms > T` |
| `pre_roll.dfy` | `PreRoll` | the `prev_input` buffer capped at `max_chunks` |
| `segmenter.dfy` | `Segmenter` | `record`: the silence deadline, the optional 30 s cap, the returned frames and duration |
| `profiles.dfy` | `Profiles` | the `profiles.json` dictionary: insertion order, lookup, assignment |
| `speaker.dfy` | `Speaker` | service URLs, `identify_speaker`, `recognize_speaker` with its 0.3 threshold, enrollment capture |
| `transcript.dfy` | `Transcript` | `speech_recognition` and `speech_and_speaker_recognition`: normalisation and accumulation |
| `listen.dfy` | `Listening` | the loops of `listen_continuous`, `listen_wait` and `listen_once` as functions of the recorder's state, and what they promise |
| `recorder.dfy` | `Microphone` | the `Recorder` class of `Recorder.py`: `record`, `write`, the listening loops, `listen_once` |
| `protocol.dfy` | `Protocol` | the socket state machine shared by the recorders, as a transition function |
| `google.dfy` | `Google` | the single-Google recorder: `google_sender`, `transcribe_file` |
| `single_microsoft.dfy` | `SingleMicrosoft` | the single-Microsoft recorder: `transcribe_file`, language choice |
| `duplicate_wav.dfy` | `DuplicateWav` | the hub recorder: clip duplication up to 4 s, identification, the sent fragment |
| `registration.dfy` | `Registration` | name and gender acquisition, the registration step order, the profile update |

Time is an abstract integer number of milliseconds. The microphone is a finite sequence of
chunks, each stamped with the time at which `time.time()` is read after it. The speech and
identification services are function-valued parameters. Floating-point RMS is replaced by an
exact integer comparison. It agrees, on every chunk, with the exact real-valued RMS compared with the
threshold (`EnergyGate.GateAgreesWithRms`); the rounding of the code's floating-point computation is
not modelled.

## Model

| member | source | states |
|---|---|---|
| Text.LowerAt | Recorder.py:78 | `lower()` maps every character through the ASCII lower-case mapping, position by position |
| Text.RemovePunctuationShape | Recorder.py:78 | the result holds no punctuation and is no longer than the input; a single character is dropped exactly when it is punctuation; a text without punctuation is kept unchanged |
| Text.RemovePunctuationConcat | Recorder.py:78 | removal works character by character: the result for `s + t` is the result for `s` followed by the result for `t`, so with the single-character case every non-punctuation character is kept, in order |
| Text.ContainsIff | Recorder.py:242 | `w in s` holds exactly when `w` occurs at some index of `s` |
| Text.ContainsAny | Recorder.py:242 | `any(w in s for w in words)` holds exactly when some word of the list occurs in `s` |
| Text.StripCharsShape | registration_microsoft_async.py:45 | `strip(chars)` returns a slice of its input; everything cut off at either end belongs to `chars`, and the result neither starts nor ends with one of them |
| Text.StripCharsKeeps | audio_recorder_single_google_wait.py:178 | a string that neither starts nor ends with a stripped character is left unchanged by `strip` |
| TextSplit.SplitJoin | speaker_recognition_util.py:134 | splitting the comma-joined profile ids on ',' gives back the ids, provided no id contains a comma |
| EnergyGate.Sample | Recorder.py:133 | each sample is the signed 16-bit little-endian value of its byte pair |
| EnergyGate.Decode | Recorder.py:131-133 | `struct.unpack` yields one sample per two bytes |
| EnergyGate.DecodeSamples | Recorder.py:131-133 | sample `i` is the signed little-endian value of bytes `2i` and `2i + 1`, and lies in [-32768, 32767] |
| EnergyGate.Measure | Recorder.py:131-139 | an odd byte count fails (`struct.error`); an empty chunk fails (division by zero); otherwise the count is half the byte length |
| EnergyGate.Rms | Recorder.py:129-140 | the summing loop returns exactly the measurement `Measure` defines |
| EnergyGate.SumSquaresBound | Recorder.py:136-138 | the sum of squares is at most count·32768² |
| EnergyGate.LevelAtMostFullScale | Recorder.py:137-140 | the normalised mean square is at most 1, so `rms` never exceeds 1000 |
| EnergyGate.ZeroFrameIsSilent | Recorder.py:155-156 | an all-zero chunk never opens a recording, and extends one only at threshold 0 |
| EnergyGate.OnsetAndVoiced | Recorder.py:201 | a chunk that opens a recording (`>`) also extends one (`>=`); a chunk exactly at the threshold extends but does not open |
| EnergyGate.GateAgreesWithRms | Recorder.py:129-140 | the integer tests agree with `rms(frame) >= T` and `rms(frame) > T` computed over the reals |
| PreRoll.PushKeepsLatest | Recorder.py:205-207 | one append-then-trim keeps the newest `max_chunks` chunks in arrival order, newest last |
| PreRoll.PushAllKeepsLatest | Recorder.py:249-251 | any run of silent chunks leaves exactly the latest `max_chunks` of them in the buffer |
| Segmenter.ReadCount | Recorder.py:153-161 | `record` reads at least one chunk when one is available (the loop test passes on entry) and never more chunks than the stream holds |
| Segmenter.ReadCountStops | Recorder.py:153-161 | no chunk before the last one read ends the loop, and the last one read does unless the stream ran out |
| Segmenter.TestLoud | Recorder.py:155 | `self.rms(data) >= rms_threshold` decides exactly the loudness test of a configuration calibrated to that threshold |
| Segmenter.TestOnset | Recorder.py:200-201 | `self.rms(audio_input) > rms_threshold` decides exactly the onset test of a configuration calibrated to that threshold |
| Segmenter.Record | Recorder.py:142-165 | the recording is the pre-roll followed by exactly the chunks read, in order; at least one chunk is read when one is available, and never more than the stream holds |
| Segmenter.ReadSegment | Recorder.py:144-163 | the reading loop returns exactly the frames, chunk count and duration `Record` defines |
| Segmenter.RecordShape | Recorder.py:144-161 | the recording starts with the pre-roll, holds the chunks read in order, and its duration is the last read time minus the start |
| Segmenter.DeadlineMonotone | Recorder.py:151-156 | the silence deadline never moves backwards |
| Segmenter.DeadlineCoversVoiced | Recorder.py:155-156 | the deadline is at least every voiced chunk's time plus the silence span |
| Segmenter.CapBoundsRecording | Recorder.py:152-161 | every chunk but the last is read no later than the silence deadline then in force and, with the 30 s cap, no later than the cap |
| Segmenter.NoCapKeepsRecording | utils/audio_recorder_duplicate_wav.py:117-125 | without a cap, a stream of voiced chunks, each arriving within the silence span of the previous one, is read to its end |
| Profiles.Lookup | utils/audio_recorder_duplicate_wav.py:85 | `prof_dict[id]` fails exactly when `id` is not a key; otherwise it gives the name of the entry stored for `id` (the first, and in a registry with unique ids the only, entry with that id) |
| Profiles.LookupInNames | utils/audio_recorder_duplicate_wav.py:85 | a successful lookup returns one of the stored names |
| Profiles.SetLookup | registration_microsoft_async.py:142 | after `profiles_dict[id] = name`, looking up `id` gives `name` and every other id is unchanged |
| Profiles.SetKeys | registration_microsoft_async.py:142 | assignment keeps the insertion order of existing keys and appends a new key at the end |
| Profiles.SetUnique | registration_microsoft_async.py:142 | assignment keeps the keys distinct |
| Speaker.IdentifyUrlCarriesIds | speaker_recognition_util.py:111-113 | the identification URL has the fixed prefix and suffix, and the profile ids between them split back into the registry's ids |
| Speaker.ProfileUrlsDistinct | speaker_recognition_util.py:72-107 | distinct profile ids give distinct profile and enrollment URLs; the enrollment URL extends the profile URL |
| Speaker.ParseIdentifyCases | speaker_recognition_util.py:124-130 | the reply's first ranked id and score are returned; any missing field gives the all-zero id and confidence 0 |
| Speaker.MalformedReplyNeverAccepted | speaker_recognition_util.py:124-143 | a malformed reply never replaces the speaker slot |
| Speaker.AcceptThreshold | speaker_recognition_util.py:137-138 | the identified id is accepted exactly when the score is above 0.3 |
| Speaker.IdentSlot.constructor | Recorder.py:99 | the slot starts at the all-zero sentinel id |
| Speaker.IdentSlot.RecognizeSpeaker | speaker_recognition_util.py:133-143 | the slot takes the identified id if its confidence exceeds 0.3 and keeps its value otherwise |
| Speaker.CaptureEnrollment | speaker_recognition_util.py:21-54 | enrollment capture keeps exactly the first `int(44100 / 1024 * 30)` = 1291 chunks of the stream, in order |
| Transcript.NormaliseShape | Recorder.py:78-81 | the sentence is the transcript without punctuation, lower-cased; when that is longer than 512 characters it is cut to exactly its first 512; it holds no punctuation and no upper-case letter |
| Transcript.NormaliseIdempotent | Recorder.py:78-81 | normalising twice is the same as normalising once |
| Transcript.SpeechRecognitionAppends | Recorder.py:77-84 | one call appends the transcript's piece: " " plus the sentence when it is non-empty, nothing otherwise |
| Transcript.AccumulateIsPieces | Recorder.py:77-84 | over any run of transcriptions, `recognized_text` becomes its old value followed by the pieces of the results, in call order |
| Transcript.PieceAppended | Recorder.py:108-120 | the turn gains one piece, at its end, exactly when the transcript is non-empty after normalisation; the piece carries the normalised sentence, the duration, and as speaker the identified id when the registry is non-empty and the confidence is above 0.3, the sentinel otherwise |
| Transcript.TurnExtends | Recorder.py:118-120 | speech-and-speaker recognition only ever appends to the dialogue turn |
| Transcript.NoProfilesMeansSentinel | Recorder.py:99-102 | with an empty profile registry the piece carries the all-zero sentinel id |
| Transcript.TurnTextAppend | Recorder.py:120 | the turn text after an append is the piece's text alone when the turn was empty, otherwise the old text, a space, and the piece's text |
| Transcript.TurnTextEmpty | Recorder.py:209 | an empty turn has the empty text |
| Listening.StepKeepsTurn | Recorder.py:199-207 | one pass of a loop body only appends to the dialogue turn; once mode leaves the turn alone and continuous mode leaves `recognized_text` alone |
| Listening.WindowKeepsTimes | Recorder.py:253-263 | a window opened at `now` leaves its loop with `end` equal to the time of its last loud chunk plus `final_silence_time` (or `now` plus it), with `current` equal to the time of its last silent chunk (or `now`), and only once `current` has passed `end` or the stream has run out |
| Listening.WindowKeepsOrder | Recorder.py:253-263 | the chunks a window's loop reads follow the stream in order from where it started, every silent chunk but the last arrived within the deadline in force when it was read, and the turn is kept as `StepKeepsTurn` says |
| Listening.WindowLeavesLatestSilent | Recorder.py:259-262 | when the last chunk a window read was silent, the pre-roll ends with that chunk |
| Listening.LastTimeIsLast | Recorder.py:256-263 | the time a window's deadline or clock ends with is that of the last loud (resp. silent) chunk read, or the starting value when there was none |
| Listening.WakeStopsAtFirstKeyword | Recorder.py:240-251 | a wake window changes nothing when the turn already holds an exit keyword; otherwise it ends with a keyword in the turn or an exhausted stream, and its last read was made while the turn held no keyword |
| Listening.WakeKeepsTurn | Recorder.py:241-251 | the wake window only appends to the dialogue turn |
| Listening.OnceReturnsFirstText | Recorder.py:286-304 | every window of `listen_once` but the last ends with `recognized_text` empty; the result is the last window's text, non-empty, stripped; nothing is returned only when the stream runs out with nothing recognized |
| Listening.OnceOutcome | Recorder.py:281-304 | the same, plus: the returned text has no whitespace at either end, and `recognized_text` before the strip is exactly the pieces of the transcripts of the files the run wrote |
| Listening.OnceAccumulates | Recorder.py:281-304 | the text `listen_once` strips and returns is what `speech_recognition` accumulates from "" over the transcripts of the files the run wrote, in order |
| Listening.OnceKeepsTurn | Recorder.py:281-304 | `listen_once` leaves the dialogue turn alone |
| Listening.HeardWindow | Recorder.py:289-299 | in once mode, a window adds to `recognized_text` exactly the pieces of the transcripts of the files it writes, in order |
| Listening.HeardIsAccumulated | Recorder.py:77-84 | those pieces are what `speech_recognition` accumulates from "" over the transcripts |
| Microphone.Recorder.constructor | Recorder.py:61-66 | a new recorder has an empty pre-roll, an empty turn, empty `recognized_text`, continuous mode, the `Recorder.py` constants, and `record` wired to `Segmenter.Record` under them |
| Microphone.Recorder.PushPreRoll | Recorder.py:205-207 | a silent chunk is appended to the pre-roll, which keeps the latest `max_chunks` chunks |
| Microphone.Recorder.Write | Recorder.py:167-183 | the recording is stored; continuous mode updates the dialogue turn and leaves `recognized_text` alone, once mode does the opposite |
| Microphone.Recorder.Record | Recorder.py:142-165 | the recorder consumes exactly the chunks `Segmenter.Record` reads, empties the pre-roll and writes the recording |
| Microphone.Recorder.ReadFrame | Recorder.py:199-207 | the new state is `Listening.Stepped` of the old one: a loud chunk starts `record` at its time (the chunks `Segmenter.Record` reads are consumed, the pre-roll emptied, the recording written and transcribed); a silent chunk goes into the pre-roll |
| Microphone.Recorder.ListenWindow | Recorder.py:196-208 | the new state, `end` and `current` are those `Listening.WindowFrom` gives, from which `WindowKeepsTimes`, `WindowKeepsOrder` and `WindowLeavesLatestSilent` follow; the turn only grows |
| Microphone.Recorder.WakeWindow | Recorder.py:241-251 | the new state is `Listening.WakeFrom` of the old one; nothing changes when the turn already holds an exit keyword; otherwise it stops with a keyword in the turn or an exhausted stream, and the state its last read was made from held no keyword |
| Microphone.Recorder.ListenOnce | Recorder.py:281-304 | switches to once mode, clears `recognized_text` and leaves the state, result and per-window texts `Listening.OnceFrom` gives, from which `OnceOutcome` and `OnceAccumulates` follow; the turn is unchanged |
| Protocol.Run | Recorder.py:226-279 | a run sends at most one message per event, and every message sent is fit to send: a turn that is neither "" nor " ", a non-empty hub string, or a stripped script string |
| Protocol.NextSentOk | Recorder.py:264-270 | whatever one transition sends is fit to send |
| Protocol.InitialInv | Recorder.py:226-234 | the initial session satisfies the protocol invariant |
| Protocol.NextInv | Recorder.py:226-279 | every transition preserves the invariant: only recorders that read a sentence type store one; the hub is always listening with its string cleared; a session awaiting a reply holds a text fit to send; outside a window the scripts' string is stripped |
| Protocol.ConnectInv | Recorder.py:227-229 | accepting a connection keeps the invariant |
| Protocol.ReadyInv | Recorder.py:230-234 | starting to listen on a new connection keeps the invariant |
| Protocol.WindowEndInv | Recorder.py:264-270 | the end of a window keeps the invariant: what it sends or keeps is the turn or the stripped string |
| Protocol.ReplyInv | Recorder.py:272-279 | the client's reply keeps the invariant, whether it closes the connection or resumes listening |
| Protocol.RunInv | Recorder.py:226-279 | the invariant holds after any sequence of events |
| Protocol.SendIffAwaitReply | Recorder.py:264-272 | a non-hub recorder sends exactly when it moves to waiting for the client's reply |
| Protocol.SentText | Recorder.py:264-270 | the `Recorder` loops send the turn text, which is neither "" nor " "; the scripts send their accumulated text stripped, and only when it is non-empty |
| Protocol.NoWhitespaceAround | audio_recorder_single_google_wait.py:176-181 | the transcript-sending recorders send a string with no leading or trailing whitespace |
| Protocol.ReplyRules | Recorder.py:272-279 | an empty reply closes the connection; any other reply resumes listening with the text cleared, and is kept as the sentence type where the recorder reads one |
| Protocol.WakeWindowIsSent | Recorder.py:240-243 | after the reply "w", a window that ends is sent, and it ends only when an exit keyword has been said |
| Protocol.HubClearsEveryWindow | utils/audio_recorder_duplicate_wav.py:163-165 | the hub reports each non-empty window and clears it, staying in listening |
| Protocol.GoogleResendsStaleText | audio_recorder_single_google_wait.py:139-190 | as written: after a disconnect, the next client's first silent window resends the previous client's text |
| Protocol.FreshConnectionSendsOnlyNewText | audio_recorder_single_microsoft.py:124-127 | with the reset on connect, the first message on a new connection holds only text said on it |
| Google.SenderUsesFirstAlternativeOnly | audio_recorder_single_google_wait.py:61-65 | `google_sender` returns the first alternative of the first result, and `None` when there is no result |
| Google.TranscribeAllAppends | audio_recorder_single_google_wait.py:77-84 | a series of transcriptions appends " " plus each truthy result, in order |
| Google.FalsyResultChangesNothing | audio_recorder_single_google_wait.py:79-83 | a `None` or empty result leaves `string_to_send` unchanged |
| SingleMicrosoft.LastTranscriptWins | audio_recorder_single_microsoft.py:55-61 | after several transcriptions `string_to_send` is the last non-empty transcript; it is unchanged if there is none |
| SingleMicrosoft.LanguageCode | audio_recorder_single_microsoft.py:171-178 | the language is "it-IT" exactly when `--language it` is given, and "en-GB" otherwise |
| DuplicateWav.ExtendedNameOfWav | utils/audio_recorder_duplicate_wav.py:56 | the extended file name of `stem.wav` is `stemd.wav`, which differs from the original |
| DuplicateWav.CopiesFrom | utils/audio_recorder_duplicate_wav.py:57-67 | the copy count reaches 4 s, and no smaller count from the starting one does |
| DuplicateWav.CopiesMinimal | utils/audio_recorder_duplicate_wav.py:57-67 | starting from two copies, the loop stops at the least count of copies that lasts 4 s or more |
| DuplicateWav.ExtendClip | utils/audio_recorder_duplicate_wav.py:54-67 | a clip of 4 s or more is not extended; a shorter one becomes the fewest whole copies of it that last at least 4 s |
| DuplicateWav.LongClipIdentifiesMissingFile | utils/audio_recorder_duplicate_wav.py:71-78 | as written: a clip of 4 s or more is identified from the extended file, which was never written |
| DuplicateWav.IdentifyFileExists | utils/audio_recorder_duplicate_wav.py:71-78 | corrected: the file sent for identification always exists |
| DuplicateWav.FailedIdentificationRaises | utils/audio_recorder_duplicate_wav.py:81-85 | as written: a failed identification returns the non-empty sentinel id, and the lookup raises `KeyError` |
| DuplicateWav.SpeakerName | utils/audio_recorder_duplicate_wav.py:81-86 | corrected: ids not in the registry give "Unknown", registered ids give their name |
| DuplicateWav.IdentifyAudio | utils/audio_recorder_duplicate_wav.py:54-67 | corrected: the audio sent for identification lasts at least 4 s, and is the original clip when that already does |
| DuplicateWav.SenderAppendsFragment | utils/audio_recorder_duplicate_wav.py:52-88 | corrected: with a transcript and a non-empty registry, " name:text" is appended, where name is the name registered for the id identified in the clip's (extended) audio, or "Unknown" when the registry does not hold that id; otherwise the string is unchanged |
| DuplicateWav.SenderAsWrittenDropsFragment | utils/audio_recorder_duplicate_wav.py:52-88 | as written: with a transcript and a non-empty registry, a clip of 4 s or more or an unregistered non-empty id leaves `string_to_send` unchanged where the corrected sender appends; otherwise the two senders agree |
| Registration.Gender | registration_microsoft_async.py:63-70 | the answer is "f" exactly when a female word occurs in it, "m" exactly when a male word and no female word does, and "nb" otherwise |
| Registration.FemaleWinsOverMale | registration_microsoft_async.py:63-68 | "female" contains "male", yet an answer containing it is classified "f" |
| Registration.GenderIgnoresCase | registration_microsoft_async.py:61 | cleaning the gender answer gives the same result for any casing of the transcript |
| Registration.Retry | registration_microsoft_async.py:42-45 | the retry loop stops at the first transcript that is non-empty once cleaned, and returns it together with the number of attempts |
| Registration.AcquireUserName | registration_microsoft_async.py:38-49 | transcripts are taken until one is non-empty after `strip('.?!')`; that one is the name |
| Registration.AcquireUserGender | registration_microsoft_async.py:54-73 | transcripts are taken until one is non-empty once cleaned; the gender is classified from that one |
| Registration.RegisterUser | registration_microsoft_async.py:124-144 | the socket exchange follows the order profile id, name, gender, enrollment; the name is the first answer non-empty after cleaning, the gender is classified from the first usable gender answer, every earlier answer was empty after cleaning; enrollment takes the first 1291 chunks; the registry gets `id -> name` |
| Registration.RegistrationUpdatesOneEntry | registration_microsoft_async.py:142 | registration adds or replaces exactly one entry and keeps ids unique |

## Left out

- Audio devices, WAV files, file removal, `gc.collect`, logging, `time.sleep`: not modelled. Frames are byte sequences; time is an integer parameter carried by each chunk.
- Sockets are modelled by the events of `Protocol.Next` and by the message log of `Registration.RegisterUser`. The bytes on the wire and their UTF-8 encoding are not modelled.
- The ready message read after `accept` is ignored, as the code ignores it. The code also ignores an empty read at that point, so a disconnect there is not treated as one.
- Threads: each transcription is taken to finish before the next chunk is read. Races between the transcription threads and the listening loop are not modelled.
- Floating point: `rms` is modelled exactly, as an integer comparison. The 0.3 confidence threshold compares `real` values.
- The speech-to-text and speaker-identification services are opaque functions: their HTTP requests, headers and JSON are not modelled. `get_profiles`, `create_profile`, `delete_profile`, `create_enrollment` and `delete_profiles.py` enter only through their URLs.
- `DialogueTurn` and `TurnPiece` come from a package that is not part of this model. `get_text` is taken to join the piece texts with single spaces, and `to_xml_string` is not modelled; the protocol sends the turn's text in its place.
- `Microphone.speaker_reco_util`, imported by `utils/audio_recorder_duplicate_wav.py`, is not part of this model. It is taken to behave like `identify_speaker` in `speaker_recognition_util.py`.
- `audio_recorder_multiparty_wait.py` is modelled only through `Recorder.listen_wait`, which it calls (line 44). `utils/audio_recorder_continuous.py` has recogniser callbacks of its own and is not part of this model.
- `lower` is the ASCII mapping, with no Unicode case mapping. `strip` removes Python's ASCII whitespace, which includes the separators 0x1C-0x1F, but no non-ASCII Unicode whitespace.
- The microphone stream is finite. The endless `while True` loops end when it runs out, and a loop that has not finished by then returns with the stream exhausted.
- DuplicateWav.ExtendClip: requires a non-empty clip. The code loops forever on a clip with no frames.
- Registration.AcquireUserName: requires some transcript to be non-empty after cleaning. The code keeps asking the service forever otherwise. The same holds for Registration.AcquireUserGender and Registration.RegisterUser.
- Segmenter.ReadSegment: tests each chunk with the loudness test stored in the configuration (`Config.gate`) rather than recomputing `rms`. Segmenter.TestLoud shows that `rms >= threshold` decides that same test whenever the configuration is calibrated (`Segmenter.Calibrated`), as every `Settings` constant is.
- Microphone.Recorder.ReadFrame: tests each chunk with the onset test stored in the configuration (`Config.onset`) rather than recomputing `rms`. Segmenter.TestOnset shows that `rms > threshold` decides that same test for a calibrated configuration, which the recorder's constants are.
- The four `record` functions are one model, `Segmenter.Record`, applied to each script's own constants (the `Settings` constant of each module). `audio_recorder_single_microsoft.py:102` computes `wav_duration` but does not pass it to `write`, and the other scripts compute none, so the model's duration goes unused for them.

- Time: each chunk carries the value `time.time()` returns after it is read, and the model takes these values as given. Nothing assumes they increase: with times out of order, a window may end right after a loud chunk, as the code's loop test would.
- Microphone.Recorder.ListenOnce: each window after the first opens at the time of the last chunk read (by the window's loop or by `record`), which is the model's value of `time.time()` at the top of the loop.
- Microphone.Recorder.Record calls `record` through the recorder's `recorder` field, which the constructor sets to `Segmenter.SegmentRecorder` of the recorder's constants; `Segmenter.ReadSegment` is the reading loop proved to compute that function.

## Findings

| source | as written | input that shows it | evidently intended | confidence | as-written member | corrected member |
|---|---|---|---|---|---|---|
| utils/audio_recorder_duplicate_wav.py:71-78 | both branches identify `extended_wav_filename` | a recording of 4 s or more: no extended file is written, and identification opens a missing file | identify the original file when no extended file was written | not executed | DuplicateWav.LongClipIdentifiesMissingFile | DuplicateWav.IdentifyFileExists |
| utils/audio_recorder_duplicate_wav.py:81-85 | `if not ident_speaker_id` treats only the empty id as unknown | a failed identification returns the non-empty all-zero id, so `prof_dict[...]` raises `KeyError` | report "Unknown" for an id that is not registered | not executed | DuplicateWav.FailedIdentificationRaises | DuplicateWav.SpeakerName |
| audio_recorder_single_google_wait.py:139-190 | `string_to_send` is kept when the client disconnects after a turn | client 1 receives "ciao" and closes the connection; client 2 connects and its first window is silent | clear the text on a new connection, as `audio_recorder_single_microsoft.py:127` does | not executed | Protocol.GoogleResendsStaleText | Protocol.FreshConnectionSendsOnlyNewText |

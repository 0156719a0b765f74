/** Speaker identification helpers: the request URLs, the parsing of the service's reply
    with its fallback, the 0.3 acceptance threshold of `recognize_speaker`, and the
    fixed-length enrollment capture. The HTTP calls themselves are not modelled: the
    service's reply is an input. */
module Speaker {
  import opened Wrappers
  import opened Text
  import opened TextSplit
  import opened Profiles

  /** The id that stands for "no speaker identified". */
  const Sentinel: string := "00000000-0000-0000-0000-000000000000"

  const Endpoint: string := "https://cairspeakerrecognition.cognitiveservices.azure.com"
  const ProfilesPath: string := "/speaker/identification/v2.0/text-independent/profiles"
  const IdentifyQuery: string := "/identifySingleSpeaker?profileIds="
  const IdentifyTail: string := "&ignoreMinLength=true"

  /** The fields of the identification reply the code reads: the `profileId` of each entry of
      `profilesRanking` (an entry may lack it) and `identifiedProfile.score`. A missing
      `profilesRanking` is the same as an empty one: both raise inside the `try`. */
  datatype IdentifyReply = IdentifyReply(ranking: seq<Option<string>>, score: Option<real>)

  datatype Identification = Identification(id: string, confidence: real)

  /** `','.join(prof_dict.keys())`. */
  function ProfileIds(d: ProfileDict): string
  {
    Join(Keys(d), ",")
  }

  function ProfilesUrl(): string { Endpoint + ProfilesPath }

  /** The URL `delete_profile` uses. */
  function ProfileUrl(id: string): string { ProfilesUrl() + "/" + id }

  /** The URL `create_enrollment` uses. */
  function EnrollmentUrl(id: string): string { ProfileUrl(id) + "/enrollments" }

  /** The URL `identify_speaker` uses. */
  function IdentifyUrl(ids: string): string { ProfilesUrl() + IdentifyQuery + ids + IdentifyTail }

  /** The profile ids can be read back from the identification URL: the list sits between the
      fixed query prefix and the fixed tail, and splitting it on ',' gives the registry's keys
      in order (no id contains a comma). */
  lemma IdentifyUrlCarriesIds(d: ProfileDict)
    requires d != []
    requires forall i :: 0 <= i < |d| ==> ',' !in d[i].id
    ensures var url := IdentifyUrl(ProfileIds(d));
      var from := |ProfilesUrl() + IdentifyQuery|;
      && from + |IdentifyTail| <= |url|
      && url[..from] == ProfilesUrl() + IdentifyQuery
      && url[|url| - |IdentifyTail|..] == IdentifyTail
      && Split(url[from..|url| - |IdentifyTail|], ',') == Keys(d)
  {
    var ids := ProfileIds(d);
    var url := IdentifyUrl(ids);
    var from := |ProfilesUrl() + IdentifyQuery|;
    assert url == (ProfilesUrl() + IdentifyQuery) + ids + IdentifyTail;
    assert url[from..|url| - |IdentifyTail|] == ids;
    SplitJoin(Keys(d), ',');
  }

  /** Different profiles have different profile and enrollment URLs, and the enrollment URL
      extends the profile URL. */
  lemma ProfileUrlsDistinct(a: string, b: string)
    ensures ProfileUrl(a) == ProfileUrl(b) <==> a == b
    ensures EnrollmentUrl(a) == EnrollmentUrl(b) <==> a == b
    ensures EnrollmentUrl(a)[..|ProfileUrl(a)|] == ProfileUrl(a)
  {
    var p := ProfilesUrl() + "/";
    if ProfileUrl(a) == ProfileUrl(b) {
      assert a == ProfileUrl(a)[|p|..];
      assert b == ProfileUrl(b)[|p|..];
    }
    if EnrollmentUrl(a) == EnrollmentUrl(b) {
      assert |a| == |b|;
      assert ProfileUrl(a) == EnrollmentUrl(a)[..|ProfileUrl(a)|];
      assert ProfileUrl(b) == EnrollmentUrl(b)[..|ProfileUrl(b)|];
      assert a == ProfileUrl(a)[|p|..];
      assert b == ProfileUrl(b)[|p|..];
    }
  }

  /** The `try`/`except` of `identify_speaker`. */
  function ParseIdentify(reply: IdentifyReply): Identification
  {
    if |reply.ranking| > 0 && reply.ranking[0].Some? && reply.score.Some? then
      Identification(reply.ranking[0].value, reply.score.value)
    else
      Identification(Sentinel, 0.0)
  }

  /** A well-formed reply gives the first-ranked id with its score; a reply missing any
      field gives the all-zero id with confidence 0. */
  lemma ParseIdentifyCases(reply: IdentifyReply)
    ensures (|reply.ranking| > 0 && reply.ranking[0].Some? && reply.score.Some?) ==>
              ParseIdentify(reply) == Identification(reply.ranking[0].value, reply.score.value)
    ensures (|reply.ranking| == 0 || reply.ranking[0].None? || reply.score.None?) ==>
              ParseIdentify(reply) == Identification(Sentinel, 0.0)
  {
  }

  /** `recognize_speaker`'s rule for the slot `ident_spk[0]`. */
  function Accept(slot: string, ident: Identification): string
  {
    if ident.confidence > 0.3 then ident.id else slot
  }

  /** A reply missing any expected field never replaces the slot, whatever it held. */
  lemma MalformedReplyNeverAccepted(slot: string, reply: IdentifyReply)
    requires |reply.ranking| == 0 || reply.ranking[0].None? || reply.score.None?
    ensures Accept(slot, ParseIdentify(reply)) == slot
  {
  }

  /** The slot becomes the service's id exactly when its confidence is strictly above 0.3. */
  lemma AcceptThreshold(slot: string, reply: IdentifyReply)
    requires reply.ranking != [] && reply.ranking[0].Some? && reply.score.Some?
    requires reply.ranking[0].value != slot
    ensures Accept(slot, ParseIdentify(reply)) == reply.ranking[0].value <==> reply.score.value > 0.3
    ensures Accept(slot, ParseIdentify(reply)) == slot <==> reply.score.value <= 0.3
  {
  }

  /** The one-element list `ident_spk` that `recognize_speaker` writes into from its thread. */
  class IdentSlot {
    var id: string

    constructor ()
      ensures id == Sentinel
    {
      id := Sentinel;
    }

    /** `recognize_speaker(wav, prof_dict, ident_spk)`, given the service's reply. */
    method RecognizeSpeaker(reply: IdentifyReply)
      modifies this
      ensures id == Accept(old(id), ParseIdentify(reply))
      ensures ParseIdentify(reply).confidence <= 0.3 ==> id == old(id)
    {
      var ident := ParseIdentify(reply);
      if ident.confidence > 0.3 {
        id := ident.id;
      }
    }
  }

  /** `int(rate / chunk * record_seconds)` for 44100 Hz, 1024-sample chunks and 30 s;
      the float quotient 44100 / 1024 is exact, so the truncation is integer division. */
  const EnrollmentFrames: nat := (44100 * 30) / 1024

  /** `from_speech_to_wav`'s loop: reads exactly `EnrollmentFrames` chunks, in order. */
  method CaptureEnrollment<F>(stream: seq<F>) returns (frames: seq<F>)
    requires |stream| >= EnrollmentFrames
    ensures frames == stream[..EnrollmentFrames]
    ensures |frames| == 1291
  {
    frames := [];
    var i := 0;
    while i < EnrollmentFrames
      invariant 0 <= i <= EnrollmentFrames
      invariant frames == stream[..i]
    {
      frames := frames + [stream[i]];
      i := i + 1;
    }
  }
}

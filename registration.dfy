/** User registration: per connection a profile is created, the user's name and gender are
    taken from speech (retrying while the answer is empty), thirty seconds of audio are
    enrolled, and the registry entry is written. Speech results are inputs: the answers the
    recogniser would give, in order. */
module Registration {
  import opened Wrappers
  import opened Text
  import opened Profiles
  import Speaker

  const TrimmedChars: set<char> := {'.', '?', '!'}
  const FemaleWords: seq<string> := ["female", "femmina", "femminile", "donna"]
  const MaleWords: seq<string> := ["male", "maschio", "maschile", "uomo"]
  const EnrollmentDone: string := "enrollment_completed"

  /** `result.text.strip('.?!')`, as `acquire_user_name` cleans an answer. */
  function CleanName(answer: string): string
  {
    StripChars(answer, TrimmedChars)
  }

  /** `result.text.strip('.?!').lower()`, as `acquire_user_gender` cleans an answer. */
  function CleanGender(answer: string): string
  {
    Lower(StripChars(answer, TrimmedChars))
  }

  /** The classification at the end of `acquire_user_gender`: female words are tested first. */
  function Gender(answer: string): (g: string)
    ensures g == "f" || g == "m" || g == "nb"
    ensures g == "f" <==> exists k :: 0 <= k < |FemaleWords| && Contains(answer, FemaleWords[k])
    ensures g == "m" <==> (!ContainsAny(answer, FemaleWords) &&
                           exists k :: 0 <= k < |MaleWords| && Contains(answer, MaleWords[k]))
  {
    if ContainsAny(answer, FemaleWords) then "f"
    else if ContainsAny(answer, MaleWords) then "m"
    else "nb"
  }

  /** "female" contains "male", yet an answer containing "female" is classified "f":
      the order of the two tests decides. */
  lemma FemaleWinsOverMale(answer: string)
    requires Contains(answer, "female")
    ensures ContainsAny(answer, MaleWords)
    ensures Gender(answer) == "f"
  {
    ContainsIff(answer, "female");
    var i :| OccursAt(answer, "female", i);
    assert answer[i + 2..i + 6] == answer[i..i + 6][2..6] == "male";
    assert OccursAt(answer, "male", i + 2);
    ContainsIff(answer, "male");
    assert Contains(answer, MaleWords[0]);
    assert Contains(answer, FemaleWords[0]);
  }

  lemma {:induction false} LowerTrimLeft(s: string)
    ensures Lower(TrimLeft(s, TrimmedChars)) == TrimLeft(Lower(s), TrimmedChars)
    decreases |s|
  {
    if s != [] {
      var ls := Lower(s);
      LowerAt(s);
      assert ls == [LowerChar(s[0])] + Lower(s[1..]);
      assert ls[1..] == Lower(s[1..]);
      if s[0] in TrimmedChars {
        assert ls[0] == s[0];
        LowerTrimLeft(s[1..]);
      } else {
        assert ls[0] !in TrimmedChars;
      }
    }
  }

  lemma {:induction false} LowerTrimRight(s: string)
    ensures Lower(TrimRight(s, TrimmedChars)) == TrimRight(Lower(s), TrimmedChars)
    decreases |s|
  {
    if s != [] {
      var ls := Lower(s);
      var n := |s| - 1;
      LowerAt(s);
      LowerAt(s[..n]);
      assert ls[..n] == Lower(s[..n]);
      if s[n] in TrimmedChars {
        assert ls[n] == s[n];
        LowerTrimRight(s[..n]);
      } else {
        assert ls[n] == LowerChar(s[n]);
        assert ls[n] !in TrimmedChars;
      }
    }
  }

  lemma LowerStrip(s: string)
    ensures StripChars(Lower(s), TrimmedChars) == Lower(StripChars(s, TrimmedChars))
  {
    var l := TrimLeft(s, TrimmedChars);
    LowerTrimLeft(s);
    LowerTrimRight(l);
  }

  lemma LowerTwice(s: string)
    ensures Lower(Lower(s)) == Lower(s)
  {
    var l := Lower(s);
    LowerAt(s);
    LowerAt(l);
    assert forall i :: 0 <= i < |l| ==> Lower(l)[i] == l[i];
  }

  /** The gender answer is matched regardless of letter case. */
  lemma GenderIgnoresCase(answer: string)
    ensures CleanGender(Lower(answer)) == CleanGender(answer)
  {
    LowerStrip(answer);
    LowerTwice(StripChars(answer, TrimmedChars));
  }

  /** The retry loop of `acquire_user_name` and `acquire_user_gender`: ask the recogniser
      again while the cleaned answer is empty. `answers` are its successive answers. */
  method Retry(answers: seq<string>, clean: string -> string) returns (heard: string, used: nat)
    requires exists i :: 0 <= i < |answers| && clean(answers[i]) != ""
    ensures 0 < used <= |answers|
    ensures heard == clean(answers[used - 1]) && heard != ""
    ensures forall i :: 0 <= i < used - 1 ==> clean(answers[i]) == ""
  {
    ghost var w :| 0 <= w < |answers| && clean(answers[w]) != "";
    heard := "";
    used := 0;
    while heard == ""
      invariant 0 <= used <= |answers|
      invariant used > 0 ==> heard == clean(answers[used - 1])
      invariant used == 0 ==> heard == ""
      invariant heard == "" ==> used <= w
      invariant heard == "" ==> forall i :: 0 <= i < used ==> clean(answers[i]) == ""
      invariant heard != "" ==> forall i :: 0 <= i < used - 1 ==> clean(answers[i]) == ""
      decreases |answers| - used
    {
      heard := clean(answers[used]);
      used := used + 1;
    }
  }

  /** `acquire_user_name`: the first answer that is not empty once cleaned is the name. */
  method AcquireUserName(answers: seq<string>) returns (name: string, used: nat)
    requires exists i :: 0 <= i < |answers| && CleanName(answers[i]) != ""
    ensures 0 < used <= |answers|
    ensures name == CleanName(answers[used - 1]) && name != ""
    ensures forall i :: 0 <= i < used - 1 ==> CleanName(answers[i]) == ""
  {
    name, used := Retry(answers, CleanName);
  }

  /** `acquire_user_gender`: retry until the cleaned answer is not empty, then classify it. */
  method AcquireUserGender(answers: seq<string>) returns (gender: string, used: nat)
    requires exists i :: 0 <= i < |answers| && CleanGender(answers[i]) != ""
    ensures 0 < used <= |answers|
    ensures CleanGender(answers[used - 1]) != ""
    ensures forall i :: 0 <= i < used - 1 ==> CleanGender(answers[i]) == ""
    ensures gender == Gender(CleanGender(answers[used - 1]))
  {
    var heard;
    heard, used := Retry(answers, CleanGender);
    gender := Gender(heard);
  }

  /** What the server does on the socket. */
  datatype SocketStep = Receive | Send(msg: string)

  /** One connection of the registration server: profile creation, name, gender, enrollment,
      each starting by consuming one client message, then `profiles_dict[profile_id] = name`.
      `newId` is the id the profile service returns and `mic` the microphone's chunks. */
  method RegisterUser<F>(profiles: ProfileDict, newId: string, nameAnswers: seq<string>,
                         genderAnswers: seq<string>, mic: seq<F>)
    returns (updated: ProfileDict, log: seq<SocketStep>, name: string, gender: string, enrolled: seq<F>,
             usedName: nat, usedGender: nat)
    requires exists i :: 0 <= i < |nameAnswers| && CleanName(nameAnswers[i]) != ""
    requires exists i :: 0 <= i < |genderAnswers| && CleanGender(genderAnswers[i]) != ""
    requires |mic| >= Speaker.EnrollmentFrames
    ensures log == [Receive, Send(newId), Receive, Send(name), Receive, Send(gender),
                    Receive, Send(EnrollmentDone)]
    ensures 0 < usedName <= |nameAnswers| && 0 < usedGender <= |genderAnswers|
    ensures name == CleanName(nameAnswers[usedName - 1]) && name != ""
    ensures forall i :: 0 <= i < usedName - 1 ==> CleanName(nameAnswers[i]) == ""
    ensures CleanGender(genderAnswers[usedGender - 1]) != ""
    ensures forall i :: 0 <= i < usedGender - 1 ==> CleanGender(genderAnswers[i]) == ""
    ensures gender == Gender(CleanGender(genderAnswers[usedGender - 1]))
    ensures gender == "f" || gender == "m" || gender == "nb"
    ensures enrolled == mic[..Speaker.EnrollmentFrames]
    ensures updated == Set(profiles, newId, name)
  {
    // new_profile_creation, then acquire_user_name, acquire_user_gender and
    // perform_enrollment, each answering one prompt from the hub
    name, usedName := AcquireUserName(nameAnswers);
    gender, usedGender := AcquireUserGender(genderAnswers);
    enrolled := Speaker.CaptureEnrollment(mic);
    log := [Receive, Send(newId), Receive, Send(name), Receive, Send(gender),
            Receive, Send(EnrollmentDone)];
    updated := Set(profiles, newId, name);
  }

  /** After a registration only the new user's entry changes, and it holds the acquired name. */
  lemma RegistrationUpdatesOneEntry(profiles: ProfileDict, newId: string, name: string)
    requires UniqueIds(profiles)
    ensures Lookup(Set(profiles, newId, name), newId) == Some(name)
    ensures forall k :: k != newId ==> Lookup(Set(profiles, newId, name), k) == Lookup(profiles, k)
    ensures UniqueIds(Set(profiles, newId, name))
  {
    SetLookup(profiles, newId, name);
    SetUnique(profiles, newId, name);
  }
}

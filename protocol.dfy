/** The turn-taking loops of the recorders (`listen_wait` and `listen_continuous` of
    `Recorder`, `listen` of the Google, single-Microsoft and duplicate-wav scripts) as one
    transition function over abstract events. A listening window is one event: the inner
    `while` loops that read the microphone until a final silence (or, in wake mode, until an
    exit keyword is heard) are summarised by the text the transcription threads added
    during the window. */
module Protocol {
  import opened Wrappers
  import opened Text

  /** `exit_keywords`. */
  const ExitKeywords: seq<string> := ["passo e chiudo", "cosa ne pensi"]

  /** The client's reply that switches to wake mode. */
  const Wake: string := "w"

  /** Which loop is running. `GoogleWait(resetOnConnect)` is the Google script; the script as
      written does not clear `string_to_send` on a new connection (`resetOnConnect == false`).
      `Hub` is the duplicate-wav script, which has no client and prints its string. */
  datatype Variant = ListenWait | ListenContinuous | GoogleWait(resetOnConnect: bool) | SingleMicrosoft | Hub

  datatype Phase =
    | Accepting   // blocked in `accept()`
    | AwaitReady  // connected, waiting for the ready message
    | Listening   // reading the microphone
    | AwaitReply  // a turn was sent, waiting for the client's reply

  /** `pending` is the text of `dialogue_turn` for the `Recorder` loops and `string_to_send`
      for the scripts; `sentenceType` is `sentence_type` ("" where the loop has none). */
  datatype Session = Session(phase: Phase, sentenceType: string, pending: string)

  datatype Event =
    | Connect               // `accept()` returns
    | Ready(msg: string)    // the first `recv` on the connection (its content is ignored)
    | WindowEnd(added: string) // a listening window ends; `added` is what was transcribed in it
    | Reply(msg: string)    // the `recv` after a send

  datatype Step = Step(next: Session, sent: Option<string>)

  function Initial(v: Variant): Session
  {
    if v == Hub then Session(Listening, "", "") else Session(Accepting, "", "")
  }

  /** The `Recorder` loops keep a `DialogueTurn` that is renewed at the start of every window. */
  predicate UsesTurn(v: Variant) { v == ListenWait || v == ListenContinuous }

  predicate HasSentenceType(v: Variant) { v == ListenWait || v.GoogleWait? }

  predicate ResetsOnConnect(v: Variant)
  {
    v == SingleMicrosoft || (v.GoogleWait? && v.resetOnConnect)
  }

  /** The text the loop tests at the end of a window. */
  function WindowText(v: Variant, s: Session, added: string): string
  {
    if UsesTurn(v) then added else s.pending + added
  }

  predicate WakeMode(v: Variant, s: Session)
  {
    HasSentenceType(v) && s.sentenceType == Wake
  }

  /** The string the wake-mode loop searches for an exit keyword: `get_text()` in `Recorder`,
      `string_to_send.lower()` in the Google script. */
  function WakeText(v: Variant, s: Session, added: string): string
  {
    if UsesTurn(v) then WindowText(v, s, added) else Lower(WindowText(v, s, added))
  }

  /** In wake mode a window only ends once an exit keyword has been heard. */
  predicate WindowCanEnd(v: Variant, s: Session, added: string)
  {
    !WakeMode(v, s) || ContainsAny(WakeText(v, s, added), ExitKeywords)
  }

  /** `get_text() not in ["", " "]` for the `Recorder` loops, truthiness for the scripts. */
  predicate Sends(v: Variant, text: string)
  {
    if UsesTurn(v) then text != "" && text != " " else text != ""
  }

  /** One step of a loop. Events that cannot happen in the current phase leave it unchanged. */
  function Next(v: Variant, s: Session, e: Event): Step
  {
    match e
    case Connect =>
      if s.phase == Accepting then Step(s.(phase := AwaitReady), None) else Step(s, None)
    case Ready(_) =>
      if s.phase == AwaitReady then
        Step(Session(Listening, "", if ResetsOnConnect(v) then "" else s.pending), None)
      else Step(s, None)
    case WindowEnd(added) =>
      if s.phase == Listening && WindowCanEnd(v, s, added) then
        var text := WindowText(v, s, added);
        if v == Hub then
          Step(s.(pending := ""), if text != "" then Some(text) else None)
        else if Sends(v, text) then
          var out := if UsesTurn(v) then text else Strip(text);
          Step(Session(AwaitReply, s.sentenceType, out), Some(out))
        else Step(s.(pending := text), None)
      else Step(s, None)
    case Reply(msg) =>
      if s.phase == AwaitReply then
        var st := if HasSentenceType(v) then msg else s.sentenceType;
        if msg == "" then Step(Session(Accepting, st, s.pending), None)
        else Step(Session(Listening, st, ""), None)
      else Step(s, None)
  }

  /** What may go out on the socket (or, for the duplicate-wav script, be printed): a turn
      that is neither "" nor " " from the `Recorder` loops, a non-empty string from the
      duplicate-wav script, and a stripped string from the other scripts. */
  predicate SentOk(v: Variant, text: string)
  {
    if UsesTurn(v) then Sends(v, text)
    else if v == Hub then text != ""
    else Strip(text) == text
  }

  /** Whatever one step sends satisfies `SentOk`. */
  lemma NextSentOk(v: Variant, s: Session, e: Event)
    ensures Next(v, s, e).sent.Some? ==> SentOk(v, Next(v, s, e).sent.value)
  {
    if e.WindowEnd? && s.phase == Listening && WindowCanEnd(v, s, e.added) {
      StripIdempotent(WindowText(v, s, e.added));
    }
  }

  /** A run of events from a session: the final session and every turn sent, in order; each
      of them is fit to send. */
  function Run(v: Variant, s: Session, events: seq<Event>): (r: (Session, seq<string>))
    ensures |r.1| <= |events|
    ensures forall i :: 0 <= i < |r.1| ==> SentOk(v, r.1[i])
    decreases |events|
  {
    if events == [] then (s, [])
    else
      var st := Next(v, s, events[0]);
      var rest := Run(v, st.next, events[1..]);
      NextSentOk(v, s, events[0]);
      (rest.0, (if st.sent.Some? then [st.sent.value] else []) + rest.1)
  }

  /** What every reachable session satisfies: `sentence_type` stays "" where the loop has
      none; the duplicate-wav script is always listening with its string cleared between
      windows; a turn awaiting its reply is fit to send; and outside a listening window the
      scripts' string is stripped (it was stripped when sent, or is still empty). */
  predicate Inv(v: Variant, s: Session)
  {
    && (!HasSentenceType(v) ==> s.sentenceType == "")
    && (v == Hub ==> s.phase == Listening && s.pending == "")
    && (s.phase == AwaitReply ==> v != Hub && SentOk(v, s.pending))
    && (!UsesTurn(v) && s.phase != Listening ==> Strip(s.pending) == s.pending)
  }

  lemma InitialInv(v: Variant)
    ensures Inv(v, Initial(v))
    ensures v != Hub ==> Initial(v).phase == Accepting
  {
    assert Strip("") == "" by { StripIdempotent(""); assert TrimLeft("", Whitespace) == ""; }
  }

  lemma NextInv(v: Variant, s: Session, e: Event)
    requires Inv(v, s)
    ensures Inv(v, Next(v, s, e).next)
  {
    match e
    case Connect => ConnectInv(v, s, e);
    case Ready(_) => ReadyInv(v, s, e);
    case WindowEnd(added) => WindowEndInv(v, s, e);
    case Reply(_) => ReplyInv(v, s, e);
  }

  /** A connection is accepted with the session otherwise unchanged. */
  lemma ConnectInv(v: Variant, s: Session, e: Event)
    requires Inv(v, s) && e.Connect?
    ensures Inv(v, Next(v, s, e).next)
  {
  }

  /** A new connection starts listening with the scripts' string kept or cleared. */
  lemma ReadyInv(v: Variant, s: Session, e: Event)
    requires Inv(v, s) && e.Ready?
    ensures Inv(v, Next(v, s, e).next)
  {
    if s.phase == AwaitReady {
      assert Next(v, s, e).next == Session(Listening, "", if ResetsOnConnect(v) then "" else s.pending);
    }
  }

  /** The client's reply either closes the connection, keeping what was sent, or starts the
      next window with the string cleared. */
  lemma ReplyInv(v: Variant, s: Session, e: Event)
    requires Inv(v, s) && e.Reply?
    ensures Inv(v, Next(v, s, e).next)
  {
    assert Strip("") == "" by { assert TrimLeft("", Whitespace) == ""; }
    var msg := e.msg;
    if s.phase == AwaitReply {
      var st := if HasSentenceType(v) then msg else s.sentenceType;
      if msg == "" {
        assert Next(v, s, e).next == Session(Accepting, st, s.pending);
      } else {
        assert Next(v, s, e).next == Session(Listening, st, "");
      }
    }
  }

  /** The end of a window keeps `Inv`: what it sends, or keeps for the next window, is the
      turn or the stripped string. */
  lemma WindowEndInv(v: Variant, s: Session, e: Event)
    requires Inv(v, s) && e.WindowEnd?
    ensures Inv(v, Next(v, s, e).next)
  {
    var added := e.added;
    if s.phase == Listening && WindowCanEnd(v, s, added) {
      var text := WindowText(v, s, added);
      StripIdempotent(text);
      if v != Hub && Sends(v, text) {
        var out := if UsesTurn(v) then text else Strip(text);
        assert Next(v, s, e).next == Session(AwaitReply, s.sentenceType, out);
      }
    }
  }

  lemma {:induction false} RunInv(v: Variant, s: Session, events: seq<Event>)
    requires Inv(v, s)
    ensures Inv(v, Run(v, s, events).0)
    decreases |events|
  {
    if events != [] {
      NextInv(v, s, events[0]);
      RunInv(v, Next(v, s, events[0]).next, events[1..]);
    }
  }

  /** With a client, a turn is sent exactly when a listening window ends with something to
      send, and the loop then waits for the client's reply; the duplicate-wav script never
      waits for anyone. */
  lemma SendIffAwaitReply(v: Variant, s: Session, e: Event)
    requires Inv(v, s)
    ensures v != Hub ==>
      (Next(v, s, e).sent.Some? <==> s.phase == Listening && Next(v, s, e).next.phase == AwaitReply)
    ensures Next(v, s, e).sent.Some? ==> e.WindowEnd? && s.phase == Listening
    ensures v == Hub ==> Next(v, s, e).next.phase == Listening
  {
  }

  /** What is sent: the `Recorder` loops send a turn that is neither "" nor " "; the scripts
      send the stripped string, which has no surrounding whitespace. */
  lemma SentText(v: Variant, s: Session, added: string)
    requires v != Hub
    ensures var st := Next(v, s, WindowEnd(added));
      st.sent.Some? ==>
        && st.next.pending == st.sent.value
        && (UsesTurn(v) ==> st.sent.value == added && added != "" && added != " ")
        && (!UsesTurn(v) ==> st.sent.value == Strip(s.pending + added) && s.pending + added != "")
  {
  }

  lemma NoWhitespaceAround(v: Variant, s: Session, added: string)
    requires !UsesTurn(v) && v != Hub
    ensures var st := Next(v, s, WindowEnd(added));
      st.sent.Some? && st.sent.value != [] ==>
        st.sent.value[0] !in Whitespace && st.sent.value[|st.sent.value| - 1] !in Whitespace
  {
    var text := s.pending + added;
    if s.phase == Listening && WindowCanEnd(v, s, added) && Sends(v, text) {
      assert Next(v, s, WindowEnd(added)).sent == Some(Strip(text));
      StripCharsShape(text, Whitespace);
    } else {
      assert Next(v, s, WindowEnd(added)).sent == None;
    }
  }

  /** The client's reply: an empty one (the client closed the socket) goes back to `accept()`;
      any other one starts a new, empty turn and sets `sentence_type` where the loop has it. */
  lemma ReplyRules(v: Variant, s: Session, msg: string)
    requires s.phase == AwaitReply
    ensures msg == "" ==> Next(v, s, Reply(msg)).next.phase == Accepting
    ensures msg != "" ==> Next(v, s, Reply(msg)).next == Session(Listening, if HasSentenceType(v) then msg else s.sentenceType, "")
  {
  }

  lemma {:induction false} ContainsLength(s: string, w: string)
    ensures Contains(s, w) ==> |w| <= |s|
    decreases |s|
  {
    if |w| <= |s| && s[..|w|] != w {
      ContainsLength(s[1..], w);
    }
  }

  /** In wake mode a window ends only on an exit keyword, and the text that holds it is
      always sent. */
  lemma WakeWindowIsSent(v: Variant, s: Session, added: string)
    requires v == ListenWait || v.GoogleWait?
    requires s.phase == Listening && s.sentenceType == Wake
    ensures Next(v, s, WindowEnd(added)).next.phase == AwaitReply <==> WindowCanEnd(v, s, added)
    ensures WindowCanEnd(v, s, added) ==> Next(v, s, WindowEnd(added)).sent.Some?
  {
    if WindowCanEnd(v, s, added) {
      var t := WakeText(v, s, added);
      var k :| 0 <= k < |ExitKeywords| && Contains(t, ExitKeywords[k]);
      ContainsLength(t, ExitKeywords[k]);
      assert |t| >= 2;
      assert |t| == |WindowText(v, s, added)|;
    }
  }

  /** The duplicate-wav loop prints whatever was collected and clears it after every window. */
  lemma HubClearsEveryWindow(s: Session, added: string)
    requires s.phase == Listening
    ensures Next(Hub, s, WindowEnd(added)).next.pending == ""
    ensures Next(Hub, s, WindowEnd(added)).sent ==
      (if s.pending + added != "" then Some(s.pending + added) else None)
  {
  }

  /** The first window of the Google script as written ends by sending the stale string. */
  lemma StaleSentAtWindowEnd(stale: string)
    requires stale != "" && Strip(stale) == stale
    ensures Run(GoogleWait(false), Session(Listening, "", stale), [WindowEnd("")]) ==
      (Session(AwaitReply, "", stale), [stale])
  {
    var v := GoogleWait(false);
    var s3 := Session(Listening, "", stale);
    var s4 := Session(AwaitReply, "", stale);
    assert stale + "" == stale;
    assert Next(v, s3, WindowEnd("")) == Step(s4, Some(stale));
    assert [WindowEnd("")][1..] == [];
    assert [stale] + [] == [stale];
  }

  /** The Google script as written: after a client disconnects, the last string sent to it
      (`stale`, already stripped) is still in `string_to_send`, and the next client receives
      it again at the end of its first window although nothing was said. */
  lemma GoogleResendsStaleText(stale: string, ready: string)
    requires stale != "" && Strip(stale) == stale
    ensures var r := Run(GoogleWait(false), Session(AwaitReply, "", stale),
                         [Reply(""), Connect, Ready(ready), WindowEnd("")]);
      r.1 == [stale] && r.0.phase == AwaitReply
  {
    var v := GoogleWait(false);
    var s0 := Session(AwaitReply, "", stale);
    var s1 := Session(Accepting, "", stale);
    var s2 := Session(AwaitReady, "", stale);
    var s3 := Session(Listening, "", stale);
    var s4 := Session(AwaitReply, "", stale);
    var es := [Reply(""), Connect, Ready(ready), WindowEnd("")];
    assert [] + [stale] == [stale];
    StaleSentAtWindowEnd(stale);
    assert es[3..] == [WindowEnd("")];
    assert Next(v, s2, Ready(ready)) == Step(s3, None);
    assert Run(v, s2, es[2..]) == (s4, [stale]) by {
      assert es[2..][0] == Ready(ready) && es[2..][1..] == es[3..];
      assert Next(v, s2, es[2..][0]).sent == None;
      assert Run(v, s2, es[2..]) == (Run(v, s3, es[3..]).0, [] + Run(v, s3, es[3..]).1);
    }
    assert Next(v, s1, Connect) == Step(s2, None);
    assert Run(v, s1, es[1..]) == (s4, [stale]) by {
      assert es[1..][0] == Connect && es[1..][1..] == es[2..];
      assert Next(v, s1, es[1..][0]).sent == None;
      assert Run(v, s1, es[1..]) == (Run(v, s2, es[2..]).0, [] + Run(v, s2, es[2..]).1);
    }
    assert Next(v, s0, Reply("")) == Step(s1, None);
    assert es[0] == Reply("");
  }

  /** With the reset on connection (the single-Microsoft script, and the corrected Google
      script), the first turn sent on a new connection holds only what was said on it. */
  lemma FreshConnectionSendsOnlyNewText(v: Variant, s: Session, ready: string, added: string)
    requires ResetsOnConnect(v)
    requires s.phase == AwaitReady
    ensures var s1 := Next(v, s, Ready(ready)).next;
      s1.phase == Listening && s1.pending == "" &&
      Next(v, s1, WindowEnd(added)).sent == (if added != "" then Some(Strip(added)) else None)
  {
    var s1 := Next(v, s, Ready(ready)).next;
    assert s1 == Session(Listening, "", "");
    assert !UsesTurn(v) && v != Hub && !WakeMode(v, s1);
    assert WindowText(v, s1, added) == added by {
      assert s1.pending + added == added;
    }
  }
}

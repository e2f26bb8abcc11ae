/** The voice loop of the `Haro` component as a state machine over values:
    one state record, one event per browser callback, one step function.
    The class in module HaroComponent performs the same steps in place. */
module Session {
  import opened Wrappers
  import opened Text
  import opened Speech

  /** `SILENCE_TIMEOUT`, in milliseconds. */
  const SilenceTimeout: nat := 1000

  /** A scheduled silence timeout together with what its callback closes
      over: the transcript of the render that scheduled it, and (through
      `sendMessage` and `speakMessage`) that render's voice list. */
  datatype Timer = Timer(delay: nat, text: string, voices: seq<Voice>)

  /** A message handed to `sendMessage` whose reply has not arrived yet; the
      reply is spoken with the voices the sending closure captured. */
  datatype Request = Request(text: string, voices: seq<Voice>)

  /** The outcome of the POST: a rejection, or a reply body whose `content`
      may be absent. */
  datatype Response = Failed | Answered(content: Option<string>)

  datatype State = State(
    transcript: string,            // the recognizer's live transcript
    listening: bool,               // recognition running
    continuous: bool,              // the mode recognition was last started in
    timers: map<nat, Timer>,       // silence timeouts scheduled and not yet fired or cleared
    silenceTimer: Option<nat>,     // the `silenceTimer` ref: the id last scheduled
    nextTimerId: nat,              // the id the next `setTimeout` returns
    lastTranscript: string,        // the `lastTranscript` ref: the last finalized utterance
    messages: seq<string>,         // the `messages` state
    outbox: seq<string>,           // every text handed to `sendMessage`, in order
    inFlight: seq<Request>,        // requests still awaiting their reply
    speechQueue: seq<Utterance>,   // utterances handed to the synthesizer and not yet ended
    voices: seq<Voice>)            // the list `useVoices` returns

  /** One browser callback each. */
  datatype Event =
    | TranscriptChanged(value: string)            // the recognizer's transcript took a new value
    | SilenceTimerFired(id: nat)                  // the timeout with this id ran out
    | ReplyArrived(request: nat, response: Response) // the reply to `inFlight[request]`
    | SpeechEnded                                 // `onend` of the utterance being spoken
    | VoicesLoaded(fetched: seq<Voice>)           // `loadVoices` ran (on mount or `voiceschanged`)
    | StartPressed                                // the start button was clicked
    | StopPressed                                 // the stop button was clicked

  /** The first render: nothing heard, nothing scheduled, nothing said. */
  function Initial(): (r: State)
    ensures Pending(r) == None && !r.listening
    ensures r.outbox == [] && r.inFlight == [] && r.speechQueue == [] && r.voices == []
  {
    State("", false, false, map[], None, 1, "", [], [], [], [], [])
  }

  function Last(s: seq<string>): string
  {
    if s == [] then "" else s[|s| - 1]
  }

  /** The timer callback's test: a trimmed text is finalized when it is
      non-empty and differs from the last finalized utterance. */
  predicate Finalizes(m: string, last: string)
  {
    m != "" && m != last
  }

  /** The silence timer still pending, if any. */
  function Pending(s: State): Option<Timer>
  {
    if s.silenceTimer.Some? && s.silenceTimer.value in s.timers then Some(s.timers[s.silenceTimer.value]) else None
  }

  /** What every reachable state satisfies. */
  ghost predicate Inv(s: State)
  {
    // timer ids are positive (and so truthy) and the ref holds one already issued
    1 <= s.nextTimerId &&
    (s.silenceTimer.Some? ==> 1 <= s.silenceTimer.value < s.nextTimerId) &&
    // the only timeout that can still be scheduled is the one the ref holds
    (forall id :: id in s.timers ==> s.silenceTimer == Some(id) && s.timers[id].delay == SilenceTimeout) &&
    // `messages` records exactly what was handed to `sendMessage`
    s.messages == s.outbox &&
    s.lastTranscript == Last(s.messages) &&
    (forall i :: 0 <= i < |s.messages| ==> s.messages[i] != "" && Trimmed(s.messages[i])) &&
    (forall i :: 0 < i < |s.messages| ==> s.messages[i - 1] != s.messages[i])
  }

  /** The debounce effect, run when `transcript` takes a new value (or its
      other dependencies change): nothing for an empty transcript;
      otherwise clear the timer the ref holds and schedule a fresh one. */
  function Debounce(s: State): (r: State)
    // only the silence timeout changes
    ensures r.(timers := s.timers, silenceTimer := s.silenceTimer, nextTimerId := s.nextTimerId) == s
    ensures s.transcript == "" ==> r == s
    // a fresh timeout over the current transcript and voices is the pending one
    ensures s.transcript != "" ==>
      Pending(r) == Some(Timer(SilenceTimeout, s.transcript, s.voices)) && r.nextTimerId == s.nextTimerId + 1
    // the timeout the ref held is cleared
    ensures s.transcript != "" && s.silenceTimer.Some? && s.silenceTimer.value != s.nextTimerId ==>
      s.silenceTimer.value !in r.timers
  {
    if s.transcript == "" then s
    else
      var cleared := if s.silenceTimer.Some? then s.timers - {s.silenceTimer.value} else s.timers;
      s.(timers := cleared[s.nextTimerId := Timer(SilenceTimeout, s.transcript, s.voices)],
         silenceTimer := Some(s.nextTimerId),
         nextTimerId := s.nextTimerId + 1)
  }

  /** `sendMessage(text)` issued by a closure that captured `voices`. */
  function Send(s: State, text: string, voices: seq<Voice>): (r: State)
    ensures r.outbox == s.outbox + [text]
    ensures r.inFlight == s.inFlight + [Request(text, voices)]
    ensures r.(outbox := s.outbox, inFlight := s.inFlight) == s
  {
    s.(outbox := s.outbox + [text], inFlight := s.inFlight + [Request(text, voices)])
  }

  /** `speakMessage(content)`: stop recognition, then queue the utterance. */
  function Speak(s: State, content: string, voices: seq<Voice>): (r: State)
    ensures !r.listening
    ensures r.speechQueue == s.speechQueue + [Utterance(content, Japanese, SelectVoice(voices), Pitch, Rate)]
    ensures r.(listening := s.listening, speechQueue := s.speechQueue) == s
  {
    s.(listening := false, speechQueue := s.speechQueue + [MakeUtterance(content, voices)])
  }

  function RemoveAt<T>(s: seq<T>, k: nat): seq<T>
    requires k < |s|
  {
    s[..k] + s[k + 1..]
  }

  /** Whether a reply body has a truthy `content`. */
  predicate HasContent(r: Response)
  {
    r.Answered? && r.content.Some? && r.content.value != ""
  }

  /** The part of the state the debounce effect touches is left alone. */
  predicate SameDebounce(s: State, r: State)
  {
    r.transcript == s.transcript && r.timers == s.timers &&
    r.silenceTimer == s.silenceTimer && r.nextTimerId == s.nextTimerId &&
    r.lastTranscript == s.lastTranscript && r.messages == s.messages && r.outbox == s.outbox
  }

  /** The timer callback's finalizing branch for the trimmed text `m`:
      remember it, send it, record it, and reset the transcript. */
  function Finalize(s: State, m: string, voices: seq<Voice>): (r: State)
    ensures r.lastTranscript == m && r.transcript == ""
    ensures r.messages == s.messages + [m] && r.outbox == s.outbox + [m]
    ensures r.inFlight == s.inFlight + [Request(m, voices)]
    ensures r.(lastTranscript := s.lastTranscript, transcript := s.transcript, messages := s.messages,
               outbox := s.outbox, inFlight := s.inFlight) == s
  {
    var s1 := Send(s.(lastTranscript := m), m, voices);
    s1.(messages := s1.messages + [m], transcript := "")
  }

  /** The timeout `id` runs out. A cleared timeout never fires. */
  function Fire(s: State, id: nat): (r: State)
    ensures id !in s.timers ==> r == s
    ensures r.timers == s.timers - {id}
    // at most one message goes out, new and non-empty, and becomes the last one
    ensures r.outbox == s.outbox ||
      (r.outbox == s.outbox + [r.lastTranscript] && Finalizes(r.lastTranscript, s.lastTranscript) && r.transcript == "")
    ensures r.outbox == s.outbox ==> r.lastTranscript == s.lastTranscript && r.transcript == s.transcript
    // recognition, speech and the ref are left alone
    ensures r.listening == s.listening && r.continuous == s.continuous && r.speechQueue == s.speechQueue
    ensures r.voices == s.voices && r.silenceTimer == s.silenceTimer && r.nextTimerId == s.nextTimerId
  {
    if id !in s.timers then s
    else
      var timer := s.timers[id];
      var s1 := s.(timers := s.timers - {id});
      var m := Trim(timer.text);
      if Finalizes(m, s.lastTranscript) then Finalize(s1, m, timer.voices) else s1
  }

  /** The reply to `inFlight[k]` comes back (or the request fails). */
  function Reply(s: State, k: nat, r: Response): (t: State)
    ensures k >= |s.inFlight| ==> t == s
    ensures k < |s.inFlight| ==> t.inFlight == RemoveAt(s.inFlight, k)
    ensures SameDebounce(s, t) && t.voices == s.voices && t.continuous == s.continuous
    // a reply queues at most one utterance, and only by stopping recognition
    ensures t.speechQueue == s.speechQueue ==> t.listening == s.listening
    ensures t.speechQueue != s.speechQueue ==>
      !t.listening && |t.speechQueue| == |s.speechQueue| + 1 && t.speechQueue[..|s.speechQueue|] == s.speechQueue
  {
    if k >= |s.inFlight| then s
    else
      var req := s.inFlight[k];
      var s1 := s.(inFlight := RemoveAt(s.inFlight, k));
      if HasContent(r) then Speak(s1, r.content.value, req.voices) else s1
  }

  function Step(s: State, e: Event): (t: State)
    // only the timer callback sends, and it sends at most one message
    ensures s.outbox <= t.outbox && |t.outbox| <= |s.outbox| + 1
    ensures t.outbox != s.outbox || t.lastTranscript != s.lastTranscript ==> e.SilenceTimerFired?
    // only a reply queues speech, and only `onend` retires it
    ensures t.speechQueue != s.speechQueue ==> e.ReplyArrived? || e.SpeechEnded?
    // only a load changes the voice list
    ensures t.voices != s.voices ==> e.VoicesLoaded?
  {
    match e
    case TranscriptChanged(t) =>
      // React re-runs the effect only when the value differs
      if t == s.transcript then s else Debounce(s.(transcript := t))
    case SilenceTimerFired(id) => Fire(s, id)
    case ReplyArrived(k, r) => Reply(s, k, r)
    case SpeechEnded =>
      if s.speechQueue == [] then s
      else s.(speechQueue := s.speechQueue[1..], listening := true, continuous := true)
    case VoicesLoaded(fetched) =>
      // a new list gives `speakMessage`, hence `sendMessage`, a new identity,
      // which re-runs the debounce effect
      if fetched == [] then s else Debounce(s.(voices := LoadVoices(s.voices, fetched)))
    case StartPressed =>
      // the start button is shown only while not listening
      if s.listening then s else s.(listening := true, continuous := true)
    case StopPressed =>
      // the stop button is shown only while listening
      if s.listening then s.(listening := false) else s
  }

  /** The state after a sequence of callbacks. */
  function Run(s: State, es: seq<Event>): State
    decreases |es|
  {
    if es == [] then s else Run(Step(s, es[0]), es[1..])
  }

  // ---------------------------------------------------------------------
  // The invariant

  lemma InitialInv()
    ensures Inv(Initial())
  {
  }

  /** At most one silence timer is ever pending, and it is the one the ref
      holds. */
  lemma AtMostOneTimer(s: State)
    requires Inv(s)
    ensures |s.timers| <= 1
    ensures s.timers != map[] ==> Pending(s).Some? && s.timers == map[s.silenceTimer.value := Pending(s).value]
  {
    if s.timers != map[] {
      var id := s.silenceTimer.value;
      assert s.timers.Keys == {id};
      assert s.timers == map[id := s.timers[id]];
    }
  }

  lemma DebounceInv(s: State)
    requires Inv(s)
    ensures Inv(Debounce(s))
  {
  }

  lemma {:induction false} AppendKeepsDistinct(ms: seq<string>, m: string)
    requires forall i :: 0 <= i < |ms| ==> ms[i] != "" && Trimmed(ms[i])
    requires forall i :: 0 < i < |ms| ==> ms[i - 1] != ms[i]
    requires m != "" && Trimmed(m) && m != Last(ms)
    ensures forall i :: 0 <= i < |ms + [m]| ==> (ms + [m])[i] != "" && Trimmed((ms + [m])[i])
    ensures forall i :: 0 < i < |ms + [m]| ==> (ms + [m])[i - 1] != (ms + [m])[i]
  {
    var ns := ms + [m];
    forall i | 0 <= i < |ns| ensures ns[i] != "" && Trimmed(ns[i]) {
      if i < |ms| { assert ns[i] == ms[i]; }
    }
    forall i | 0 < i < |ns| ensures ns[i - 1] != ns[i] {
      if i < |ms| { assert ns[i - 1] == ms[i - 1] && ns[i] == ms[i]; }
    }
  }

  /** Finalizing a new, trimmed, non-empty text keeps the invariant. */
  lemma FinalizeInv(s: State, m: string, voices: seq<Voice>)
    requires Inv(s) && Trimmed(m) && Finalizes(m, s.lastTranscript)
    ensures Inv(Finalize(s, m, voices))
  {
    var r := Finalize(s, m, voices);
    AppendKeepsDistinct(s.messages, m);
    assert r.messages == s.messages + [m] && r.outbox == s.outbox + [m] && r.lastTranscript == m;
    assert r.timers == s.timers && r.silenceTimer == s.silenceTimer && r.nextTimerId == s.nextTimerId;
  }

  /** Dropping a timeout from the table keeps the invariant. */
  lemma ClearTimerInv(s: State, id: nat)
    requires Inv(s)
    ensures Inv(s.(timers := s.timers - {id}))
  {
  }

  lemma FireInv(s: State, id: nat)
    requires Inv(s)
    ensures Inv(Step(s, SilenceTimerFired(id)))
  {
    if id in s.timers {
      var timer := s.timers[id];
      var s1 := s.(timers := s.timers - {id});
      ClearTimerInv(s, id);
      var m := Trim(timer.text);
      if Finalizes(m, s.lastTranscript) {
        FinalizeInv(s1, m, timer.voices);
      }
    }
  }

  lemma ReplyInv(s: State, k: nat, resp: Response)
    requires Inv(s)
    ensures Inv(Step(s, ReplyArrived(k, resp)))
  {
    var r := Step(s, ReplyArrived(k, resp));
    assert SameDebounce(s, r);
  }

  /** Every callback keeps the invariant. */
  lemma StepInv(s: State, e: Event)
    requires Inv(s)
    ensures Inv(Step(s, e))
  {
    match e
    case TranscriptChanged(t) =>
      if t != s.transcript { DebounceInv(s.(transcript := t)); }
    case SilenceTimerFired(id) =>
      FireInv(s, id);
    case ReplyArrived(k, resp) =>
      ReplyInv(s, k, resp);
    case VoicesLoaded(fetched) =>
      if fetched != [] { DebounceInv(s.(voices := LoadVoices(s.voices, fetched))); }
    case _ =>
      assert SameDebounce(s, Step(s, e));
  }

  lemma {:induction false} RunInv(s: State, es: seq<Event>)
    requires Inv(s)
    ensures Inv(Run(s, es))
    decreases |es|
  {
    if es != [] {
      StepInv(s, es[0]);
      RunInv(Step(s, es[0]), es[1..]);
    }
  }

  /** Whatever the browser delivers, and in whatever order: at most one
      silence timer is pending, every message is trimmed and non-empty,
      no message repeats the one before it, and `lastTranscript` is the
      latest message. */
  lemma ReachableProperties(es: seq<Event>)
    ensures var s := Run(Initial(), es);
      |s.timers| <= 1 &&
      s.messages == s.outbox &&
      s.lastTranscript == Last(s.messages) &&
      (forall i :: 0 <= i < |s.messages| ==> s.messages[i] != "" && Trim(s.messages[i]) == s.messages[i]) &&
      (forall i :: 0 < i < |s.messages| ==> s.messages[i - 1] != s.messages[i])
  {
    InitialInv();
    RunInv(Initial(), es);
    var s := Run(Initial(), es);
    AtMostOneTimer(s);
    forall i | 0 <= i < |s.messages| ensures Trim(s.messages[i]) == s.messages[i] {
      TrimOfTrimmed(s.messages[i]);
    }
  }

  // ---------------------------------------------------------------------
  // One callback at a time

  /** A change to the empty transcript schedules and cancels nothing: the
      pending timer stays pending and nothing is finalized or sent. */
  lemma EmptyTranscriptIsNoOp(s: State)
    ensures var r := Step(s, TranscriptChanged(""));
      r.timers == s.timers && Pending(r) == Pending(s) &&
      r.lastTranscript == s.lastTranscript && r.messages == s.messages && r.outbox == s.outbox &&
      r.inFlight == s.inFlight && r.listening == s.listening && r.speechQueue == s.speechQueue &&
      r.transcript == ""
  {
  }

  /** A new non-empty transcript cancels whatever timer was pending and
      leaves exactly one, which captures that transcript. */
  lemma NonEmptyTranscriptReschedules(s: State, t: string)
    requires Inv(s) && t != "" && t != s.transcript
    ensures var r := Step(s, TranscriptChanged(t));
      r.timers == map[s.nextTimerId := Timer(SilenceTimeout, t, s.voices)] &&
      Pending(r) == Some(Timer(SilenceTimeout, t, s.voices)) &&
      r.transcript == t &&
      r.lastTranscript == s.lastTranscript && r.messages == s.messages && r.outbox == s.outbox &&
      r.inFlight == s.inFlight && r.listening == s.listening && r.speechQueue == s.speechQueue
  {
    var r := Step(s, TranscriptChanged(t));
    assert r.timers.Keys == {s.nextTimerId};
  }

  /** A firing whose trimmed text is new finalizes it: it becomes the last
      utterance, is sent once, is appended to `messages`, and the transcript
      is reset. */
  lemma FireFinalizes(s: State, id: nat)
    requires id in s.timers
    requires Finalizes(Trim(s.timers[id].text), s.lastTranscript)
    ensures var m := Trim(s.timers[id].text); var r := Step(s, SilenceTimerFired(id));
      r.lastTranscript == m &&
      r.outbox == s.outbox + [m] &&
      r.inFlight == s.inFlight + [Request(m, s.timers[id].voices)] &&
      r.messages == s.messages + [m] &&
      r.transcript == "" &&
      id !in r.timers && r.listening == s.listening && r.speechQueue == s.speechQueue
  {
  }

  /** A firing whose trimmed text is empty or repeats the last utterance
      sends nothing and leaves the transcript as it was. */
  lemma FireDiscards(s: State, id: nat)
    requires Inv(s) && id in s.timers
    requires !Finalizes(Trim(s.timers[id].text), s.lastTranscript)
    ensures var r := Step(s, SilenceTimerFired(id));
      r == s.(timers := s.timers - {id}) && Pending(r) == None
  {
  }

  /** A reply with content stops recognition and queues one utterance in
      Japanese, at pitch 2 and rate 1.5, in the voice preferred among those
      the sending closure captured; the debounce state is untouched. */
  lemma ReplySpeaks(s: State, k: nat, r: Response)
    requires k < |s.inFlight| && HasContent(r)
    ensures var t := Step(s, ReplyArrived(k, r));
      !t.listening &&
      t.speechQueue == s.speechQueue + [Utterance(r.content.value, "ja-JP", SelectVoice(s.inFlight[k].voices), 2.0, 1.5)] &&
      t.inFlight == s.inFlight[..k] + s.inFlight[k + 1..] &&
      SameDebounce(s, t)
  {
  }

  /** A rejected request, or a reply without content, speaks nothing and
      changes neither recognition nor the debounce state. */
  lemma ReplySilent(s: State, k: nat, r: Response)
    requires !HasContent(r)
    ensures var t := Step(s, ReplyArrived(k, r));
      t.listening == s.listening && t.continuous == s.continuous &&
      t.speechQueue == s.speechQueue && SameDebounce(s, t) &&
      (k < |s.inFlight| ==> t.inFlight == s.inFlight[..k] + s.inFlight[k + 1..])
  {
  }

  /** The end of an utterance restarts continuous recognition, whatever
      else is queued or pending. */
  lemma SpeechEndRestarts(s: State)
    requires s.speechQueue != []
    ensures var t := Step(s, SpeechEnded);
      t.listening && t.continuous && t.speechQueue == s.speechQueue[1..] &&
      SameDebounce(s, t) && t.inFlight == s.inFlight
  {
  }

  /** The stop button stops recognition only: a pending silence timer still
      fires later. */
  lemma StopLeavesTimer(s: State)
    requires s.listening
    ensures var t := Step(s, StopPressed);
      !t.listening && SameDebounce(s, t) && Pending(t) == Pending(s)
  {
  }

  /** The start button starts continuous recognition and nothing else. */
  lemma StartStartsListening(s: State)
    requires !s.listening
    ensures Step(s, StartPressed) == s.(listening := true, continuous := true)
  {
  }

  /** An empty voice list leaves everything as it was; a non-empty one
      replaces the list and, while there is a transcript, restarts the
      silence timer with a closure over the new list. */
  lemma VoicesLoadedEffect(s: State, fetched: seq<Voice>)
    requires Inv(s)
    ensures fetched == [] ==> Step(s, VoicesLoaded(fetched)) == s
    ensures var t := Step(s, VoicesLoaded(fetched));
      fetched != [] ==>
        t.voices == fetched &&
        (s.transcript != "" ==> t.timers == map[s.nextTimerId := Timer(SilenceTimeout, s.transcript, fetched)]) &&
        (s.transcript == "" ==> t.timers == s.timers) &&
        t.lastTranscript == s.lastTranscript && t.outbox == s.outbox && t.messages == s.messages
  {
    var t := Step(s, VoicesLoaded(fetched));
    if fetched != [] && s.transcript != "" {
      assert t.timers.Keys == {s.nextTimerId};
    }
  }
}

/** The `Haro` component with its refs, state and the browser objects it
    drives held in fields, each callback a method that updates them in
    place. Every method is proved to perform exactly the step of module
    Session, so the lemmas proved there hold of the component. */
module HaroComponent {
  import opened Wrappers
  import opened Text
  import opened Speech
  import opened Session

  class Haro {
    var transcript: string
    var listening: bool
    var continuous: bool
    var timers: map<nat, Timer>
    var silenceTimer: Option<nat>
    var nextTimerId: nat
    var lastTranscript: string
    var messages: seq<string>
    var outbox: seq<string>
    var inFlight: seq<Request>
    var speechQueue: seq<Utterance>
    var voices: seq<Voice>

    /** The fields as one value of the state machine. */
    function Model(): State
      reads this
    {
      State(transcript, listening, continuous, timers, silenceTimer, nextTimerId,
            lastTranscript, messages, outbox, inFlight, speechQueue, voices)
    }

    ghost predicate Valid()
      reads this
    {
      Inv(Model())
    }

    /** Mounting: an empty transcript, no timer, no messages, not listening. */
    constructor ()
      ensures Valid() && Model() == Initial()
    {
      transcript, listening, continuous := "", false, false;
      timers, silenceTimer, nextTimerId := map[], None, 1;
      lastTranscript, messages := "", [];
      outbox, inFlight, speechQueue, voices := [], [], [], [];
      new;
      InitialInv();
    }

    /** `sendMessage(content)`: the POST is issued and its reply awaited. */
    method SendMessage(content: string, captured: seq<Voice>)
      modifies this
      ensures Model() == Send(old(Model()), content, captured)
      ensures outbox == old(outbox) + [content]
    {
      outbox := outbox + [content];
      inFlight := inFlight + [Request(content, captured)];
    }

    /** `speakMessage(content)`: recognition is stopped first, then one
        Japanese utterance at pitch 2 and rate 1.5 is queued. */
    method SpeakMessage(content: string, captured: seq<Voice>)
      modifies this
      ensures Model() == Speak(old(Model()), content, captured)
      ensures !listening
      ensures speechQueue == old(speechQueue) + [Utterance(content, "ja-JP", SelectVoice(captured), 2.0, 1.5)]
    {
      listening := false;
      var utterance := MakeUtterance(content, captured);
      speechQueue := speechQueue + [utterance];
    }

    /** The body of the debounce effect. */
    method RunDebounceEffect()
      requires Valid()
      modifies this
      ensures Valid() && Model() == Debounce(old(Model()))
    {
      ghost var s0 := Model();
      DebounceInv(s0);
      if transcript == "" {
        return;
      }
      // clear the timeout the ref holds, then schedule a fresh one
      var cleared := if silenceTimer.Some? then timers - {silenceTimer.value} else timers;
      timers := cleared[nextTimerId := Timer(SilenceTimeout, transcript, voices)];
      silenceTimer := Some(nextTimerId);
      nextTimerId := nextTimerId + 1;
    }

    /** The recognizer reports a transcript; a new value re-runs the
        debounce effect. */
    method OnTranscriptChange(value: string)
      requires Valid()
      modifies this
      ensures Valid() && Model() == Step(old(Model()), TranscriptChanged(value))
      ensures value != "" && value != old(transcript) ==> Pending(Model()) == Some(Timer(SilenceTimeout, value, voices))
    {
      if value == transcript {
        return;
      }
      transcript := value;
      RunDebounceEffect();
      if value != "" {
        NonEmptyTranscriptReschedules(old(Model()), value);
      }
    }

    /** The finalizing branch of the timer callback. */
    method FinalizeMessage(newMessage: string, captured: seq<Voice>)
      modifies this
      ensures Model() == Finalize(old(Model()), newMessage, captured)
      ensures lastTranscript == newMessage && transcript == ""
      ensures messages == old(messages) + [newMessage] && outbox == old(outbox) + [newMessage]
    {
      lastTranscript := newMessage;
      SendMessage(newMessage, captured);
      messages := messages + [newMessage];
      transcript := "";
    }

    /** The timeout `id` runs out: its callback trims the captured
        transcript and finalizes it when it is non-empty and new. */
    method OnSilenceTimer(id: nat)
      requires Valid()
      modifies this
      ensures Valid() && Model() == Step(old(Model()), SilenceTimerFired(id))
    {
      ghost var s0 := Model();
      FireInv(s0, id);
      if id !in timers {
        return;
      }
      var timer := timers[id];
      timers := timers - {id};
      ghost var s1 := Model();
      assert s1 == s0.(timers := s0.timers - {id});
      var newMessage := Trim(timer.text);
      if Finalizes(newMessage, lastTranscript) {
        FinalizeMessage(newMessage, timer.voices);
        assert Model() == Finalize(s1, newMessage, timer.voices);
      }
      assert Model() == Fire(s0, id);
    }

    /** The reply to `inFlight[k]` arrives (or the request fails): only a
        truthy `content` is spoken, with the voices the sender captured. */
    method OnReply(k: nat, response: Response)
      requires Valid()
      modifies this
      ensures Valid() && Model() == Step(old(Model()), ReplyArrived(k, response))
      ensures k < |old(inFlight)| && HasContent(response) ==> !listening
      ensures !HasContent(response) ==> listening == old(listening) && speechQueue == old(speechQueue)
    {
      StepInv(Model(), ReplyArrived(k, response));
      if k >= |inFlight| {
        return;
      }
      var request := inFlight[k];
      inFlight := RemoveAt(inFlight, k);
      if HasContent(response) {
        SpeakMessage(response.content.value, request.voices);
      }
    }

    /** `onend` of the utterance being spoken: continuous recognition is
        restarted unconditionally. */
    method OnSpeechEnd()
      requires Valid()
      modifies this
      ensures Valid() && Model() == Step(old(Model()), SpeechEnded)
      ensures old(speechQueue) != [] ==> listening && continuous
    {
      StepInv(Model(), SpeechEnded);
      if speechQueue == [] {
        return;
      }
      speechQueue := speechQueue[1..];
      listening, continuous := true, true;
    }

    /** `loadVoices`: a non-empty list replaces the current one, which gives
        `speakMessage` and `sendMessage` new identities and so re-runs the
        debounce effect. */
    method OnVoicesChanged(fetched: seq<Voice>)
      requires Valid()
      modifies this
      ensures Valid() && Model() == Step(old(Model()), VoicesLoaded(fetched))
    {
      if |fetched| == 0 {
        return;
      }
      voices := LoadVoices(voices, fetched);
      RunDebounceEffect();
    }

    /** The start button, shown while not listening. */
    method PressStart()
      requires Valid()
      modifies this
      ensures Valid() && Model() == Step(old(Model()), StartPressed)
    {
      StepInv(Model(), StartPressed);
      if !listening {
        listening, continuous := true, true;
      }
    }

    /** The stop button, shown while listening; it cancels no timer. */
    method PressStop()
      requires Valid()
      modifies this
      ensures Valid() && Model() == Step(old(Model()), StopPressed)
      ensures timers == old(timers)
    {
      StepInv(Model(), StopPressed);
      if listening {
        listening := false;
      }
    }
  }
}

/** Listening versus speaking. `speakMessage` stops recognition before it
    queues speech, but `onend` restarts it without looking at what else is
    queued, and the start button is shown whenever recognition is off; so
    the component does not keep the two apart in general. */
module Exclusion {
  import opened Wrappers
  import opened Text
  import opened Speech
  import opened Session
  import opened Dedup

  /** Recognition is on while the synthesizer still has speech to say. */
  predicate Overlap(s: State)
  {
    s.listening && s.speechQueue != []
  }

  /** Two replies that both carry content, arriving before the first has
      finished: the end of the first restarts recognition while the second
      is still queued. */
  lemma TwoRepliesOverlap(s: State, r1: Response, r2: Response)
    requires |s.inFlight| >= 2 && HasContent(r1) && HasContent(r2)
    ensures Overlap(Step(Step(Step(s, ReplyArrived(0, r1)), ReplyArrived(0, r2)), SpeechEnded))
  {
    var s1 := Step(s, ReplyArrived(0, r1));
    ReplySpeaks(s, 0, r1);
    var s2 := Step(s1, ReplyArrived(0, r2));
    ReplySpeaks(s1, 0, r2);
    SpeechEndRestarts(s2);
  }

  /** The start button is on screen while a reply is being spoken (speaking
      turned recognition off), and pressing it starts recognition over the
      speech. */
  lemma StartDuringSpeechOverlaps(s: State, k: nat, r: Response)
    requires k < |s.inFlight| && HasContent(r)
    ensures var t := Step(s, ReplyArrived(k, r));
      !t.listening && Overlap(Step(t, StartPressed))
  {
  }

  /** Two messages can be in flight at once: recognition keeps running
      after a message is sent, so a second utterance is finalized before the
      first reply arrives. */
  lemma TwoInFlight(s: State, a: string, b: string)
    requires Inv(s) && s.listening && s.transcript == ""
    requires a != "" && b != "" && Trimmed(a) && Trimmed(b) && a != b && a != s.lastTranscript
    ensures var t := Utter(Utter(s, a), b);
      |t.inFlight| == |s.inFlight| + 2 && t.listening && t.speechQueue == s.speechQueue
  {
    TrimOfTrimmed(a);
    TrimOfTrimmed(b);
    UtterSends(s, a);
    UtterSends(Utter(s, a), b);
  }

  /** From mounting: press start, say "a", fall silent, say "b", fall
      silent; both replies carry content and the first one is spoken to
      its end. Recognition is then running while the second reply is still
      queued for speech. */
  lemma OverlapReachable(r1: Response, r2: Response)
    requires HasContent(r1) && HasContent(r2)
    ensures var s := Utter(Utter(Step(Initial(), StartPressed), "a"), "b");
      Overlap(Step(Step(Step(s, ReplyArrived(0, r1)), ReplyArrived(0, r2)), SpeechEnded))
  {
    var s0 := Step(Initial(), StartPressed);
    InitialInv();
    StepInv(Initial(), StartPressed);
    assert Trimmed("a") && Trimmed("b");
    TwoInFlight(s0, "a", "b");
    TwoRepliesOverlap(Utter(Utter(s0, "a"), "b"), r1, r2);
  }

  /** A reply handler speaks in the voice chosen from the list its sending
      closure captured: a message sent before any voice was loaded is
      spoken in the platform default voice, even when voices have loaded
      since. */
  lemma StaleVoiceList(s: State, k: nat, fetched: seq<Voice>, r: Response)
    requires k < |s.inFlight| && s.inFlight[k].voices == [] && fetched != [] && HasContent(r)
    ensures var t := Step(Step(s, VoicesLoaded(fetched)), ReplyArrived(k, r));
      t.voices == fetched && t.speechQueue[|t.speechQueue| - 1].voice == None
  {
    var s1 := Step(s, VoicesLoaded(fetched));
    assert s1.inFlight == s.inFlight;
  }

  /** The hand-off that does work: one reply, spoken and finished with
      nothing else queued, leaves recognition running and the synthesizer
      idle. */
  lemma SingleReplyResumes(s: State, k: nat, r: Response)
    requires k < |s.inFlight| && HasContent(r) && s.speechQueue == []
    ensures var t := Step(s, ReplyArrived(k, r));
      !t.listening && t.speechQueue != [] &&
      var u := Step(t, SpeechEnded);
      u.listening && u.continuous && u.speechQueue == []
  {
  }
}

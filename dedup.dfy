/** What the silence debounce makes of a run of utterances: each one is a
    transcript followed by a full quiet interval. */
module Dedup {
  import opened Wrappers
  import opened Text
  import opened Session

  /** Say `t`, then stay quiet until the silence timer it scheduled fires. */
  function Utter(s: State, t: string): State
  {
    Step(Step(s, TranscriptChanged(t)), SilenceTimerFired(s.nextTimerId))
  }

  function UtterAll(s: State, ts: seq<string>): State
    decreases |ts|
  {
    if ts == [] then s else UtterAll(Utter(s, ts[0]), ts[1..])
  }

  /** The reference rule on trimmed texts: keep the non-empty ones,
      dropping each one that equals the most recently kept one (or `last`,
      before any is kept). */
  function Dedupe(last: string, ms: seq<string>): seq<string>
    decreases |ms|
  {
    if ms == [] then []
    else if Finalizes(ms[0], last) then [ms[0]] + Dedupe(ms[0], ms[1..])
    else Dedupe(last, ms[1..])
  }

  function TrimAll(ts: seq<string>): (ms: seq<string>)
    ensures |ms| == |ts| && forall i :: 0 <= i < |ts| ==> ms[i] == Trim(ts[i])
  {
    if ts == [] then [] else [Trim(ts[0])] + TrimAll(ts[1..])
  }

  /** Quiet after a full silence: no timeout is pending, and the transcript
      holds nothing a firing would finalize (it is empty, or its trimmed text
      was already discarded as empty or as a repeat). */
  ghost predicate Settled(s: State)
  {
    Pending(s) == None &&
    (s.transcript == "" || !Finalizes(Trim(s.transcript), s.lastTranscript))
  }

  /** Mounting leaves the loop settled. */
  lemma InitialSettled()
    ensures Settled(Initial())
  {
  }

  lemma TrimEmpty()
    ensures Trim("") == ""
  {
  }

  /** One utterance: a new trimmed text is sent and becomes the last one;
      any other text sends nothing. */
  lemma UtterEffect(s: State, t: string)
    requires Inv(s) && Settled(s)
    ensures var r := Utter(s, t); var m := Trim(t);
      Inv(r) && Settled(r) &&
      (Finalizes(m, s.lastTranscript) ==> r.outbox == s.outbox + [m] && r.lastTranscript == m) &&
      (!Finalizes(m, s.lastTranscript) ==> r.outbox == s.outbox && r.lastTranscript == s.lastTranscript)
  {
    TrimEmpty();
    if t == s.transcript || t == "" {
      UtterUnheard(s, t);
    } else if Finalizes(Trim(t), s.lastTranscript) {
      UtterSends(s, t);
    } else {
      UtterDiscarded(s, t);
    }
  }

  /** With no timeout pending, an utterance that is no change, or empty,
      schedules nothing, so the silence after it fires nothing. */
  lemma UtterUnheard(s: State, t: string)
    requires Inv(s) && Pending(s) == None && (t == s.transcript || t == "")
    ensures var r := Utter(s, t); Inv(r) && r.outbox == s.outbox && r.lastTranscript == s.lastTranscript
    ensures Utter(s, t).transcript == t && Pending(Utter(s, t)) == None
  {
    var s1 := Step(s, TranscriptChanged(t));
    StepInv(s, TranscriptChanged(t));
    assert s1.nextTimerId == s.nextTimerId && s1.timers == s.timers;
    assert s.nextTimerId !in s1.timers;
  }

  /** A new transcript whose trimmed text is empty or a repeat is heard,
      timed out, and dropped; the transcript stays. */
  lemma UtterDiscarded(s: State, t: string)
    requires Inv(s) && t != s.transcript && t != ""
    requires !Finalizes(Trim(t), s.lastTranscript)
    ensures var r := Utter(s, t);
      Inv(r) && r.outbox == s.outbox && r.lastTranscript == s.lastTranscript && r.transcript == t &&
      Pending(r) == None
  {
    var s1 := Step(s, TranscriptChanged(t));
    StepInv(s, TranscriptChanged(t));
    StepInv(s1, SilenceTimerFired(s.nextTimerId));
    NonEmptyTranscriptReschedules(s, t);
    FireDiscards(s1, s.nextTimerId);
  }

  /** An utterance that changes the transcript and is new once trimmed is
      sent, with the voices of the moment, and nothing else about
      recognition or speech changes. */
  lemma UtterSends(s: State, t: string)
    requires Inv(s) && t != s.transcript && t != ""
    requires Finalizes(Trim(t), s.lastTranscript)
    ensures var r := Utter(s, t);
      Inv(r) &&
      r.inFlight == s.inFlight + [Request(Trim(t), s.voices)] &&
      r.outbox == s.outbox + [Trim(t)] && r.lastTranscript == Trim(t) && r.transcript == "" &&
      Pending(r) == None &&
      r.listening == s.listening && r.speechQueue == s.speechQueue && r.voices == s.voices
  {
    var s1 := Step(s, TranscriptChanged(t));
    StepInv(s, TranscriptChanged(t));
    StepInv(s1, SilenceTimerFired(s.nextTimerId));
    NonEmptyTranscriptReschedules(s, t);
    FireFinalizes(s1, s.nextTimerId);
  }

  /** Whatever is said, what is sent is exactly the reference rule applied
      to the trimmed utterances. */
  lemma {:induction false} UtterAllSends(s: State, ts: seq<string>)
    requires Inv(s) && Settled(s)
    ensures UtterAll(s, ts).outbox == s.outbox + Dedupe(s.lastTranscript, TrimAll(ts))
    decreases |ts|
  {
    if ts != [] {
      var t, rest := ts[0], ts[1..];
      var r := Utter(s, t);
      UtterEffect(s, t);
      UtterAllSends(r, rest);
      assert UtterAll(s, ts) == UtterAll(r, rest);
      var ms := TrimAll(ts);
      assert ms[0] == Trim(t) && ms[1..] == TrimAll(rest);
      AppendAssoc(s.outbox, Trim(t), Dedupe(Trim(t), TrimAll(rest)));
    }
  }

  /** From mounting, what any run of utterances sends is the reference
      rule applied to their trims. */
  lemma MountSends(ts: seq<string>)
    ensures UtterAll(Initial(), ts).outbox == Dedupe("", TrimAll(ts))
  {
    InitialInv();
    InitialSettled();
    UtterAllSends(Initial(), ts);
  }

  lemma AppendAssoc(xs: seq<string>, m: string, ys: seq<string>)
    ensures xs + [m] + ys == xs + ([m] + ys)
  {
  }

  /** The same text twice in a row is sent once. */
  lemma RepeatSentOnce(last: string, m: string)
    ensures Dedupe(last, [m, m]) == Dedupe(last, [m])
  {
    assert [m, m][1..] == [m];
    assert [m][1..] == [];
  }

  /** Only the most recent text is compared: A, B, A sends all three. */
  lemma AlternatingAllSent(last: string, a: string, b: string)
    requires a != "" && b != "" && a != b && a != last
    ensures Dedupe(last, [a, b, a]) == [a, b, a]
  {
    assert [a, b, a][1..] == [b, a];
    assert [b, a][1..] == [a];
    assert [a][1..] == [];
    assert Dedupe(b, [a]) == [a];
    assert Dedupe(a, [b, a]) == [b, a];
  }

  /** What the reference rule may send after `last`: trimmed, non-empty
      texts, the first different from `last`, none equal to the one before. */
  predicate WellFormedSends(last: string, f: seq<string>)
  {
    (forall i :: 0 <= i < |f| ==> f[i] != "" && Trimmed(f[i])) &&
    (f != [] ==> f[0] != last) &&
    (forall i :: 0 < i < |f| ==> f[i - 1] != f[i])
  }

  /** Applied to trimmed texts, the reference rule never sends an empty or
      untrimmed text, never the previous last utterance first, and never
      the same text twice in a row. */
  lemma {:induction false} DedupeShape(last: string, ms: seq<string>)
    requires forall i :: 0 <= i < |ms| ==> Trimmed(ms[i])
    ensures WellFormedSends(last, Dedupe(last, ms))
    decreases |ms|
  {
    if ms != [] {
      assert Trimmed(ms[0]);
      if Finalizes(ms[0], last) {
        DedupeShape(ms[0], ms[1..]);
        ConsWellFormed(last, ms[0], Dedupe(ms[0], ms[1..]));
      } else {
        DedupeShape(last, ms[1..]);
      }
    }
  }

  lemma ConsWellFormed(last: string, m: string, rest: seq<string>)
    requires m != "" && Trimmed(m) && m != last && WellFormedSends(m, rest)
    ensures WellFormedSends(last, [m] + rest)
  {
    var f := [m] + rest;
    forall i | 0 < i < |f| ensures f[i] != "" && Trimmed(f[i]) {
      assert f[i] == rest[i - 1];
    }
    forall i | 0 < i < |f| ensures f[i - 1] != f[i] {
      assert f[i] == rest[i - 1];
      if i > 1 { assert f[i - 1] == rest[i - 2]; }
    }
  }

  /** An utterance said twice, each time followed by silence, is sent
      once. */
  lemma RepeatUtteranceSentOnce(s: State, t: string)
    requires Inv(s) && Settled(s) && Finalizes(Trim(t), s.lastTranscript)
    ensures UtterAll(s, [t, t]).outbox == s.outbox + [Trim(t)]
  {
    UtterAllSends(s, [t, t]);
    TrimAllPair(t);
    RepeatDedupe(s.lastTranscript, Trim(t));
  }

  lemma TrimAllPair(t: string)
    ensures TrimAll([t, t]) == [Trim(t), Trim(t)]
  {
  }

  lemma RepeatDedupe(last: string, m: string)
    requires Finalizes(m, last)
    ensures Dedupe(last, [m, m]) == [m]
  {
    RepeatSentOnce(last, m);
    assert [m][1..] == [];
  }
}

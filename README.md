# Haro voice loop, modelled in Dafny

Haro is a browser page where the user talks to a character. The browser's
speech recognizer produces a live transcript. After one second without a
change, the transcript is trimmed, and it is posted to a backend when the
trimmed text is non-empty and differs from the last text posted. The backend's
reply is spoken back in Japanese through the browser's speech synthesizer.

This project models the client-side loop of the `Haro` component
(`client/Haro.tsx`). It has two layers:

- **Module `Session`** is the loop as a state machine over values. The
  `State` record holds the recognizer's transcript, whether recognition is
  running (and, if so, in continuous mode), the browser's pending silence
  timeouts, the `silenceTimer` and `lastTranscript` refs, the `messages`
  state and the voice list from `useVoices`. It also holds three logs:
  - the outbox: every text handed to `sendMessage`;
  - the requests still waiting for a reply;
  - the synthesizer's queue of utterances not yet ended.

  Each browser callback is one `Event`, and `Step` performs it. `Inv` is
  the invariant of every reachable state.
- **Class `HaroComponent.Haro`** holds the same state as fields. It has one
  method per callback and updates the fields in place. Each callback method
  is proved to perform exactly `Step` on its fields, and to keep `Inv`. The
  four helpers are proved to perform a part of a step instead:
  `RunDebounceEffect` performs `Debounce` (and keeps `Inv`), and
  `SendMessage`, `SpeakMessage` and `FinalizeMessage` perform `Send`,
  `Speak` and `Finalize`; these three neither assume nor promise `Inv`,
  which holds again once the callback that calls them returns.

Around these, four more modules:

- `Text`: `trim`, over the whitespace set of ECMAScript.
- `Speech`: voices, the first-match voice choice, and the utterance
  settings (language `ja-JP`, pitch 2, rate 1.5).
- `Dedup`: what a run of utterances sends.
- `Exclusion`: how listening and speaking interact.

## How the model reads the code

- **Timers.** Timers are explicit: the browser's table of pending silence
  timeouts is a map from timer id to what the callback closed over. Ids start
  at 1, so the `if (silenceTimer.current)` test is the test that the ref is
  set. A cleared timeout never fires.
- **What a timer's closure captures.** The callback sees the transcript of
  the render that scheduled it. Through the `sendMessage` → `speakMessage`
  dependency chain it also sees that render's voice list. Each request keeps
  that voice list, and its reply is spoken with it.
- **Whether a transcript change counts.** The debounce effect runs only when
  one of its dependencies changes. A transcript event that repeats the
  current value does nothing. A non-empty voice list gives `speakMessage`
  and `sendMessage` new identities, so loading one re-runs the effect. While
  there is a transcript, that re-run restarts the silence timer.
- **Events that cannot arrive are no-ops.** These are: a timeout that was
  cleared, a reply to no request, `onend` with nothing queued, and a button
  that is not on screen. They change nothing.
- **When `content` counts.** A reply is spoken only when the request
  succeeded and `content` is a non-empty string, which is JavaScript's
  truthiness test.
- **Constants.** `SILENCE_TIMEOUT` is 1000 ms, as the code defines it. The
  comment beside it says two seconds; the model follows the code.
- **What the component does not have.** The component has no power flag,
  no proactive-event timer, no speech-error handler and no power check
  before listening restarts; `onend` restarts continuous recognition
  unconditionally. Nothing in it keeps listening and speaking apart beyond
  the `stopListening` call in `speakMessage` (see below).

## Model

| member | source | states |
|---|---|---|
| Text.TrimStart | client/Haro.tsx:64 | the result is a suffix of the input, empty or starting with a non-whitespace character |
| Text.TrimStartDropsWhitespace | client/Haro.tsx:64 | what the leading trim drops is all whitespace |
| Text.TrimEnd | client/Haro.tsx:64 | the result is a prefix of the input, empty or ending with a non-whitespace character |
| Text.TrimEndDropsWhitespace | client/Haro.tsx:64 | what the trailing trim drops is all whitespace |
| Text.Trim | client/Haro.tsx:64 | the result has no whitespace at either end and is no longer than the input |
| Text.TrimMargins | client/Haro.tsx:64 | the trimmed text is the infix of the input that starts where the leading whitespace ends, with only whitespace before and after it |
| Text.TrimOfTrimmed | client/Haro.tsx:64 | a text without whitespace at its ends is its own trim |
| Text.TrimIdempotent | client/Haro.tsx:64 | trimming twice is trimming once |
| Text.TrimEmptyIff | client/Haro.tsx:64-65 | the trimmed text is empty exactly when the input is all whitespace |
| Speech.Includes | client/Haro.tsx:29 | `includes` is true exactly when the needle occurs at some position of the name |
| Speech.FindIndex | client/Haro.tsx:29-30 | `find` returns the first index that satisfies the test, or none when no element does |
| Speech.SelectVoice | client/Haro.tsx:28-31 | no voice exactly when the list is empty; otherwise the voice at the preferred index: the first "Microsoft Sayaka" name, else the first `ja-JP` voice, else the first |
| Speech.PreferredUnique | client/Haro.tsx:28-31 | the preference rule picks at most one index, so the choice is determined |
| Speech.MakeUtterance | client/Haro.tsx:26-33 | the utterance carries the content, language `ja-JP`, pitch 2, rate 1.5 and a voice from the list, and has a voice whenever the list is non-empty |
| Speech.LoadVoices | client/use-voices.ts:6-11 | an empty `getVoices()` result keeps the current list; a non-empty one replaces it; the list is non-empty once one load was non-empty |
| Session.Initial | client/Haro.tsx:18-21 | on mount no timeout is pending, nothing has been sent, spoken or requested, recognition is off and the voice list is empty |
| Session.Debounce | client/Haro.tsx:57-63 | an empty transcript changes nothing; otherwise the timeout the ref held is cleared and a fresh 1000 ms one over the current transcript and voices becomes the pending one; nothing but the timers and the ref changes |
| Session.Send | client/Haro.tsx:42-45 | the text is appended to the outbox and awaits its reply with the captured voices; nothing else changes |
| Session.Speak | client/Haro.tsx:25-37 | recognition is off and one `ja-JP` utterance at pitch 2 and rate 1.5, in the voice chosen from the captured list, is queued; nothing else changes |
| Session.HasContent | client/Haro.tsx:47 | the truthiness test on the reply: a successful reply whose `content` is present and non-empty |
| Session.Finalizes | client/Haro.tsx:65 | the timer callback's test: the trimmed text is non-empty and differs from `lastTranscript` |
| Session.Finalize | client/Haro.tsx:66-69 | the text becomes `lastTranscript`, is sent with the captured voices, is appended to `messages`, and the transcript is reset; nothing else changes |
| Session.Fire | client/Haro.tsx:63-71 | the fired timeout leaves the table; a cleared one changes nothing; at most one message goes out, new and non-empty, and it becomes `lastTranscript`; recognition, speech, voices and the ref are left alone |
| Session.Reply | client/Haro.tsx:45-52 | a reply to no request changes nothing; otherwise the request is retired; at most one utterance is queued, and only by stopping recognition; the debounce state is untouched |
| Session.Step | client/Haro.tsx:23-105 | only the timer callback sends (at most one message) or changes `lastTranscript`; only a reply or `onend` changes the speech queue; only a load changes the voice list |
| Session.InitialInv | client/Haro.tsx:18-20 | the initial state satisfies the invariant |
| Session.AtMostOneTimer | client/Haro.tsx:60-63 | at most one silence timeout is pending, and it is the one the ref holds |
| Session.DebounceInv | client/Haro.tsx:57-63 | the debounce effect keeps the invariant |
| Session.AppendKeepsDistinct | client/Haro.tsx:65-68 | appending a new trimmed, non-empty message that differs from the last keeps the messages trimmed, non-empty and free of repeats |
| Session.ClearTimerInv | client/Haro.tsx:61 | dropping a timeout from the table keeps the invariant |
| Session.FinalizeInv | client/Haro.tsx:65-69 | finalizing a trimmed, non-empty text that differs from `lastTranscript` keeps the invariant |
| Session.FireInv | client/Haro.tsx:63-71 | the timer callback keeps the invariant |
| Session.ReplyInv | client/Haro.tsx:42-55 | reply handling keeps the invariant |
| Session.StepInv | client/Haro.tsx:23-105 | every callback keeps the invariant |
| Session.RunInv | client/Haro.tsx:23-105 | every sequence of callbacks keeps the invariant |
| Session.ReachableProperties | client/Haro.tsx:57-72 | in every reachable state, at most one timer is pending; `messages` equals what was sent; `lastTranscript` is the latest message; messages are trimmed, non-empty and never repeat the one before |
| Session.EmptyTranscriptIsNoOp | client/Haro.tsx:58 | a change to the empty transcript leaves the pending timer, `lastTranscript`, `messages`, the outbox, recognition and speech as they were |
| Session.NonEmptyTranscriptReschedules | client/Haro.tsx:60-63 | a new non-empty transcript leaves exactly one pending timer, of 1000 ms, capturing that transcript; nothing is sent |
| Session.FireFinalizes | client/Haro.tsx:64-69 | firing with a new non-empty trimmed text makes it `lastTranscript`, sends it once, appends it to `messages` and resets the transcript |
| Session.FireDiscards | client/Haro.tsx:65 | firing with an empty or repeated trimmed text only retires the timer: nothing is sent and the transcript is not reset |
| Session.ReplySpeaks | client/Haro.tsx:23-49 | a reply with content stops recognition and queues one `ja-JP` utterance at pitch 2 and rate 1.5, in the voice chosen from the sender's captured list; the debounce state is unchanged |
| Session.ReplySilent | client/Haro.tsx:45-52 | a failed request or a reply without content speaks nothing and changes neither recognition nor the debounce state |
| Session.SpeechEndRestarts | client/Haro.tsx:34-36 | the end of an utterance restarts continuous recognition, whatever else is pending |
| Session.StopLeavesTimer | client/Haro.tsx:102 | the stop button stops recognition and cancels no timer |
| Session.StartStartsListening | client/Haro.tsx:91-97 | the start button starts continuous recognition and changes nothing else |
| Session.VoicesLoadedEffect | client/Haro.tsx:72 | an empty voice list changes nothing; a non-empty one replaces the list and, while there is a transcript, restarts the timer with the new list |
| Dedup.TrimAll | client/Haro.tsx:64 | each element of the result is the trim of the element at the same position, and the lengths agree |
| Dedup.InitialSettled | client/Haro.tsx:18-21 | on mount no timeout is pending and the transcript is empty |
| Dedup.UtterEffect | client/Haro.tsx:57-72 | from a settled state (no timeout pending, nothing finalizable in the transcript), one utterance followed by silence leaves the loop settled again and sends its trimmed text exactly when it is non-empty and differs from the last one; otherwise it sends nothing and `lastTranscript` stays |
| Dedup.UtterUnheard | client/Haro.tsx:57-58 | with no timeout pending, an unchanged or empty transcript schedules nothing, so the silence that follows sends nothing and no timeout is left pending |
| Dedup.UtterDiscarded | client/Haro.tsx:64-65 | a new transcript whose trimmed text is empty or repeats the last one times out and is dropped; the transcript is not reset and no timeout is left pending |
| Dedup.UtterSends | client/Haro.tsx:63-69 | a new utterance is sent once, trimmed, with the current voices; it becomes `lastTranscript`, the transcript is reset, no timeout is left pending, and recognition and speech are left alone |
| Dedup.UtterAllSends | client/Haro.tsx:57-72 | from a settled state, for any run of utterances each followed by silence, what is sent is the reference rule applied to their trims: keep the non-empty ones, dropping each equal to the one kept before it (or to `lastTranscript`) |
| Dedup.MountSends | client/Haro.tsx:18-72 | from mounting, what any run of utterances sends is the reference rule applied to their trims, starting from an empty `lastTranscript` |
| Dedup.RepeatSentOnce | client/Haro.tsx:65 | under the reference rule, a trimmed text twice in a row is kept as if it came once |
| Dedup.RepeatDedupe | client/Haro.tsx:65 | a new text twice in a row is kept once |
| Dedup.AlternatingAllSent | client/Haro.tsx:65-66 | A, B, A keeps all three, because only the latest text is compared |
| Dedup.DedupeShape | client/Haro.tsx:64-66 | applied to trimmed texts, the reference rule keeps only non-empty ones, never `lastTranscript` first, and never the same text twice in a row |
| Dedup.ConsWellFormed | client/Haro.tsx:65-66 | a new, trimmed, non-empty text in front of a well-formed run keeps it well formed |
| Dedup.RepeatUtteranceSentOnce | client/Haro.tsx:57-72 | from a settled state, an utterance said twice, each time followed by silence, is sent once, trimmed |
| Exclusion.TwoRepliesOverlap | client/Haro.tsx:34-37 | with two replies with content queued, the end of the first restarts recognition while the second is still queued |
| Exclusion.StartDuringSpeechOverlaps | client/Haro.tsx:90-100 | the start button is shown while a reply is spoken, and pressing it runs recognition over the speech |
| Exclusion.TwoInFlight | client/Haro.tsx:63-69 | recognition keeps running after a send, so two messages can await replies at once |
| Exclusion.OverlapReachable | client/Haro.tsx:23-72 | from mounting, start, "a", silence, "b", silence, two replies with content and one `onend` reach a state that listens while speech is queued |
| Exclusion.StaleVoiceList | client/Haro.tsx:39-54 | a reply is spoken in a voice chosen from the list its sender captured: sent before voices loaded, it gets the platform default even after they load |
| Exclusion.SingleReplyResumes | client/Haro.tsx:25-36 | one reply, with nothing else queued, stops recognition while it is spoken and leaves it running in continuous mode once it ends |
| HaroComponent.Haro.constructor | client/Haro.tsx:18-20 | mounting yields the initial state, which satisfies the invariant |
| HaroComponent.Haro.SendMessage | client/Haro.tsx:42-45 | the content is appended to the outbox and awaits its reply with the captured voices |
| HaroComponent.Haro.SpeakMessage | client/Haro.tsx:23-40 | recognition is off, and one `ja-JP` utterance with pitch 2, rate 1.5 and the chosen voice is queued |
| HaroComponent.Haro.RunDebounceEffect | client/Haro.tsx:57-63 | the fields after the effect are the debounce step of the old ones; the invariant is kept |
| HaroComponent.Haro.OnTranscriptChange | client/Haro.tsx:57-63 | the fields take the step for a transcript change; a new non-empty value leaves that value's timer pending |
| HaroComponent.Haro.FinalizeMessage | client/Haro.tsx:66-69 | `lastTranscript` becomes the message, which is sent and appended to `messages`, and the transcript is reset |
| HaroComponent.Haro.OnSilenceTimer | client/Haro.tsx:63-71 | the fields take the step for the timeout firing; the invariant is kept |
| HaroComponent.Haro.OnReply | client/Haro.tsx:42-55 | the fields take the reply step; content stops recognition; no content leaves recognition and speech alone |
| HaroComponent.Haro.OnSpeechEnd | client/Haro.tsx:34-36 | the fields take the `onend` step; recognition is running in continuous mode afterwards |
| HaroComponent.Haro.OnVoicesChanged | client/use-voices.ts:6-11 | the fields take the voice-load step, including the re-run of the debounce effect |
| HaroComponent.Haro.PressStart | client/Haro.tsx:91-99 | the fields take the start-button step |
| HaroComponent.Haro.PressStop | client/Haro.tsx:102 | the fields take the stop-button step; the pending timeout is kept |

## Listening and speaking

`speakMessage` stops recognition before it queues speech. That is all the
code does to keep listening and speaking apart, and the model shows it is
not enough:

- `onend` restarts recognition without looking at the synthesizer's queue.
  So a second reply queued behind the first is spoken while recognition runs
  (`Exclusion.TwoRepliesOverlap`).
- Recognition keeps running after a message is sent. So two messages can
  await replies at the same time (`Exclusion.TwoInFlight`). The whole path
  can be reached from mounting (`Exclusion.OverlapReachable`).
- The start button is shown whenever recognition is off, including while a
  reply is spoken (`Exclusion.StartDuringSpeechOverlaps`).

With one reply at a time and no button press, the hand-off works
(`Exclusion.SingleReplyResumes`). The model keeps the code's behaviour and
does not add a guard.

## Left out

- The POST to `/api/haro` and the Express server (`server/index.ts`): a
  reply is an input event that names its request and carries a failure or
  an optional `content`.
- The recognizer and synthesizer libraries: they become the `listening` and
  `continuous` flags, the transcript events, and the utterance queue. The
  queue is assumed to be spoken in order, with one `onend` per utterance.
  The `voiceschanged` listener wiring of `useVoices` and its removal on
  unmount are not modelled; only the list a load yields is.
- The language passed to `startListening`: the start button passes
  `ja-JP`, while `onend` passes none and relies on the library's memory.
  The model records only that recognition runs, and in continuous mode.
- Real time: each timeout fires as an explicit event. Nothing in the model
  measures the 1000 ms; it is recorded on each timer.
- The microtask between `setMessages` and `resetTranscript` inside the timer
  callback: the callback is one step. The `setMessages` and
  `resetTranscript` updates land before any other callback.
  `resetTranscript` is assumed to keep its identity across renders, so it
  never re-runs the effect by itself.
- Rendering, the unsupported-browser message, and the console logging
  (client/Haro.tsx:74-113).
- vite.config.ts and ecosystem.config.js: configuration without logic.
- Text.IsWhitespace: `trim` and `includes` are modelled on Unicode code
  points. JavaScript works on UTF-16 code units. The two agree for the
  whitespace set and for the ASCII needle "Microsoft Sayaka".
- Session.HasContent: `content` is taken to be a string when present. The
  JavaScript truthiness of other types (numbers, objects) is not modelled.
- Dedup.UtterEffect, Dedup.UtterUnheard, Dedup.UtterAllSends: stated from a
  settled state with no timeout pending, where the silence after an
  utterance fires only the timeout that utterance scheduled. A state left
  with a timeout pending (a transcript change not yet followed by silence)
  is covered one callback at a time by the Session lemmas, not by these
  run lemmas. Every state reached from mounting by utterances with silence
  is settled (`Dedup.InitialSettled`, `Dedup.UtterEffect`).

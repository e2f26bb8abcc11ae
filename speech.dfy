/** Speech synthesis as the component drives it: the voice list, the
    first-match voice choice and the utterance it hands to the synthesizer. */
module Speech {
  import opened Wrappers

  /** A synthesis voice, reduced to the two attributes the choice reads. */
  datatype Voice = Voice(name: string, lang: string)

  /** What `speakMessage` queues: the text with its language, voice
      (`None` leaves the platform default), pitch and rate. */
  datatype Utterance = Utterance(text: string, lang: string, voice: Option<Voice>, pitch: real, rate: real)

  const Japanese: string := "ja-JP"
  const PreferredVoiceName: string := "Microsoft Sayaka"
  const Pitch: real := 2.0
  const Rate: real := 1.5

  /** `hay.includes(needle)`. */
  function Includes(hay: string, needle: string): (r: bool)
    ensures r <==> exists i :: 0 <= i <= |hay| - |needle| && needle <= hay[i..]
    decreases |hay|
  {
    if needle <= hay then
      assert needle <= hay[0..];
      true
    else if hay == [] then
      false
    else
      var r := Includes(hay[1..], needle);
      assert forall i :: 1 <= i <= |hay| ==> hay[i..] == hay[1..][i - 1..];
      r
  }

  predicate IsPreferredName(v: Voice)
  {
    Includes(v.name, PreferredVoiceName)
  }

  predicate IsJapanese(v: Voice)
  {
    v.lang == Japanese
  }

  /** `Array.prototype.find`: the index of the first element satisfying `p`. */
  function FindIndex<T>(s: seq<T>, p: T -> bool): (r: Option<nat>)
    ensures r.Some? ==> r.value < |s| && p(s[r.value]) && forall j :: 0 <= j < r.value ==> !p(s[j])
    ensures r.None? ==> forall j :: 0 <= j < |s| ==> !p(s[j])
  {
    if s == [] then None
    else if p(s[0]) then Some(0)
    else
      match FindIndex(s[1..], p)
      case None => None
      case Some(k) => Some(k + 1)
  }

  /** `k` is the first index of `s` whose element satisfies `p`. */
  ghost predicate FirstWith<T>(s: seq<T>, p: T -> bool, k: int)
  {
    0 <= k < |s| && p(s[k]) && forall j :: 0 <= j < k ==> !p(s[j])
  }

  ghost predicate NoneWith<T>(s: seq<T>, p: T -> bool)
  {
    forall j :: 0 <= j < |s| ==> !p(s[j])
  }

  /** The voice at index `k` is the preferred one: the first whose name
      contains the preferred name; failing that the first Japanese voice;
      failing that the first voice. */
  ghost predicate PreferredAt(voices: seq<Voice>, k: int)
  {
    FirstWith(voices, IsPreferredName, k) ||
    (NoneWith(voices, IsPreferredName) && FirstWith(voices, IsJapanese, k)) ||
    (NoneWith(voices, IsPreferredName) && NoneWith(voices, IsJapanese) && k == 0 && voices != [])
  }

  /** The `find(...) || find(...) || voices[0]` chain of `speakMessage`:
      no voice exactly when the list is empty, and otherwise the voice at the
      preferred index. */
  function SelectVoice(voices: seq<Voice>): (r: Option<Voice>)
    ensures r.None? <==> voices == []
    ensures r.Some? ==> exists k :: PreferredAt(voices, k) && r.value == voices[k]
  {
    match FindIndex(voices, IsPreferredName)
    case Some(k) => Some(voices[k])
    case None =>
      match FindIndex(voices, IsJapanese)
      case Some(k) => Some(voices[k])
      case None => if voices == [] then None else Some(voices[0])
  }

  /** The preference rule singles out one voice, so the choice is determined. */
  lemma PreferredUnique(voices: seq<Voice>, k: int, k': int)
    requires PreferredAt(voices, k) && PreferredAt(voices, k')
    ensures k == k'
  {
  }

  /** The utterance `speakMessage` builds for `content`. */
  function MakeUtterance(content: string, voices: seq<Voice>): (u: Utterance)
    ensures u.text == content && u.lang == Japanese && u.pitch == Pitch && u.rate == Rate
    ensures u.voice.Some? ==> u.voice.value in voices
    ensures voices != [] ==> u.voice.Some?
  {
    Utterance(content, Japanese, SelectVoice(voices), Pitch, Rate)
  }

  /** `loadVoices` of `useVoices`: an empty `getVoices()` result does not
      replace the current list. */
  function LoadVoices(current: seq<Voice>, fetched: seq<Voice>): (r: seq<Voice>)
    ensures fetched != [] ==> r == fetched
    ensures fetched == [] ==> r == current
    ensures r != [] <==> current != [] || fetched != []
  {
    if |fetched| > 0 then fetched else current
  }
}

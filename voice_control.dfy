/** The selection and state rules of components/voice-control.tsx, with the
    browser's speech synthesis reduced to the values handed to it and the
    events (start, end, error) it sends back. */
module VoiceControl {

  datatype Option<T> = None | Some(value: T)

  /** A SpeechSynthesisVoice, as far as the component looks at it. */
  datatype Voice = Voice(name: string, lang: string)

  datatype Speaker = User | Jarvis

  /** One entry of the conversation log. */
  datatype Message = Message(speaker: Speaker, text: string)

  /** The settings a SpeechSynthesisUtterance is given before it is queued. */
  datatype Utterance = Utterance(text: string, voice: Option<Voice>, rate: real, pitch: real, volume: real)

  /** The state one render of the component sees and its speak() closure
      reads: the voices, the selected name and the three settings. */
  datatype Settings = Settings(voices: seq<Voice>, selected: string, rate: real, pitch: real, volume: real)

  const MinRate: real := 0.1
  const MaxRate: real := 2.0
  const MinVolume: real := 0.0
  const MaxVolume: real := 1.0

  const SpeechErrorReply: string := "I'm sorry, there was an error with the speech synthesis. Please try again."

  // ---------------------------------------------------------------------
  // Strings: String.prototype.includes and toLowerCase
  // ---------------------------------------------------------------------

  /** sub occurs in s starting at position i. */
  predicate OccursAt(s: string, sub: string, i: nat) {
    i + |sub| <= |s| && s[i..i + |sub|] == sub
  }

  /** s.includes(sub): sub occurs in s at some position. Only a string no
      longer than s can occur in it, and the empty string occurs in every one. */
  predicate Includes(s: string, sub: string)
    ensures Includes(s, sub) ==> |sub| <= |s|
    ensures |sub| == 0 ==> Includes(s, sub)
  {
    assert |sub| == 0 ==> OccursAt(s, sub, 0);
    exists i: nat | i <= |s| :: OccursAt(s, sub, i)
  }

  /** sub occurs in a + sub + b. */
  lemma IncludesMiddle(a: string, sub: string, b: string)
    ensures Includes(a + sub + b, sub)
  {
    assert OccursAt(a + sub + b, sub, |a|);
  }

  /** Appending text keeps an occurrence. */
  lemma IncludesExtend(a: string, b: string, sub: string)
    requires Includes(a, sub)
    ensures Includes(a + b, sub)
  {
    var i: nat :| i <= |a| && OccursAt(a, sub, i);
    assert (a + b)[i..i + |sub|] == a[i..i + |sub|];
    assert OccursAt(a + b, sub, i);
  }

  /** An occurrence of sub in s uses every character of sub, so a character
      of sub that s lacks rules sub out. */
  lemma MissingCharExcludes(s: string, sub: string, k: nat)
    requires k < |sub| && sub[k] !in s
    ensures !Includes(s, sub)
  {
  }

  /** A character that sub lacks splits the search: an occurrence in
      a + [c] + b lies wholly in a or wholly in b. */
  lemma SplitExcludes(a: string, c: char, b: string, sub: string)
    requires c !in sub
    requires !Includes(a, sub) && !Includes(b, sub)
    ensures !Includes(a + [c] + b, sub)
  {
    var s := a + [c] + b;
    forall i: nat | i + |sub| <= |s|
      ensures !OccursAt(s, sub, i)
    {
      if i + |sub| <= |a| {
        assert s[i..i + |sub|] == a[i..i + |sub|];
        assert !OccursAt(a, sub, i);
      } else if i > |a| {
        var j: nat := i - |a| - 1;
        assert s[i..i + |sub|] == b[j..j + |sub|];
        assert !OccursAt(b, sub, j);
      } else {
        assert s[i..i + |sub|][|a| - i] == c;
      }
    }
  }

  /** The lowercase form of one character: an ASCII capital becomes its
      small letter, 32 code points later, and every other character stays. */
  function LowerChar(c: char): (r: char)
    ensures 'A' <= c <= 'Z' ==> 'a' <= r <= 'z' && r as int == c as int + 32
    ensures !('A' <= c <= 'Z') ==> r == c
    ensures !('A' <= r <= 'Z')
  {
    if 'A' <= c <= 'Z' then (c as int + 32) as char else c
  }

  /** s.toLowerCase() on the ASCII letters. */
  function ToLower(s: string): (r: string)
    ensures |r| == |s|
    ensures forall i :: 0 <= i < |s| ==> !('A' <= r[i] <= 'Z')
    ensures forall i :: 0 <= i < |s| && 'A' <= s[i] <= 'Z' ==> r[i] as int == s[i] as int + 32
    ensures forall i :: 0 <= i < |s| ==> (r[i] == s[i] <==> !('A' <= s[i] <= 'Z'))
  {
    seq(|s|, i requires 0 <= i < |s| => LowerChar(s[i]))
  }

  /** Lowercasing keeps an occurrence: where sub occurs in s, the lowercased
      sub occurs in the lowercased s at the same position. */
  lemma {:induction false} IncludesLowered(s: string, sub: string)
    requires Includes(s, sub)
    ensures Includes(ToLower(s), ToLower(sub))
  {
    var i: nat :| i <= |s| && OccursAt(s, sub, i);
    var ls, lsub := ToLower(s), ToLower(sub);
    forall k | 0 <= k < |sub|
      ensures ls[i..i + |sub|][k] == lsub[k]
    {
      assert s[i..i + |sub|][k] == sub[k];
    }
    assert OccursAt(ls, lsub, i);
  }

  // ---------------------------------------------------------------------
  // Choosing voices
  // ---------------------------------------------------------------------

  /** Array.prototype.find: the index of the first element satisfying p. */
  function Find<T>(s: seq<T>, p: T -> bool): (r: Option<nat>)
    ensures r.Some? ==> r.value < |s| && p(s[r.value])
    ensures r.Some? ==> forall j :: 0 <= j < r.value ==> !p(s[j])
    ensures r.None? ==> forall j :: 0 <= j < |s| ==> !p(s[j])
    decreases |s|
  {
    if |s| == 0 then None
    else if p(s[0]) then Some(0)
    else match Find(s[1..], p)
      case None => None
      case Some(i) => Some(i + 1)
  }

  /** The English test of the voice filter: the language tag includes "en"
      or "EN". A tag that starts with "en", such as "en-GB", passes, and a tag
      shorter than two characters never does. */
  predicate IsEnglish(v: Voice)
    ensures IsEnglish(v) ==> |v.lang| >= 2
    ensures |v.lang| >= 2 && v.lang[..2] == "en" ==> IsEnglish(v)
  {
    assert |v.lang| >= 2 && v.lang[..2] == "en" ==> OccursAt(v.lang, "en", 0);
    Includes(v.lang, "en") || Includes(v.lang, "EN")
  }

  /** s is s' with some elements removed, the rest kept in order. */
  ghost predicate IsSubsequence<T>(s: seq<T>, s': seq<T>)
    decreases |s'|
  {
    |s| == 0 || (|s'| > 0 && ((s[0] == s'[0] && IsSubsequence(s[1..], s'[1..])) || IsSubsequence(s, s'[1..])))
  }

  /** voices.filter(v => v.lang.includes("en") || v.lang.includes("EN")). */
  function EnglishVoices(vs: seq<Voice>): (r: seq<Voice>)
    ensures IsSubsequence(r, vs)
    ensures forall v :: multiset(r)[v] == if IsEnglish(v) then multiset(vs)[v] else 0
    ensures forall v :: v in r <==> v in vs && IsEnglish(v)
    decreases |vs|
  {
    if |vs| == 0 then []
    else
      assert vs == [vs[0]] + vs[1..];
      var rest := EnglishVoices(vs[1..]);
      if IsEnglish(vs[0]) then [vs[0]] + rest else rest
  }

  /** The voices a default is chosen from: the English ones if there are
      any, otherwise all of them. */
  function CandidatePool(vs: seq<Voice>): (pool: seq<Voice>)
    ensures (exists i :: 0 <= i < |vs| && IsEnglish(vs[i])) ==> pool == EnglishVoices(vs)
    ensures (forall i :: 0 <= i < |vs| ==> !IsEnglish(vs[i])) ==> pool == vs
    ensures |pool| == 0 <==> |vs| == 0
  {
    var english := EnglishVoices(vs);
    if |english| > 0 then english else vs
  }

  /** The name test of the default-voice search. Every name it accepts has
      at least four characters, the length of the shortest name it looks for. */
  predicate IsPreferred(v: Voice)
    ensures IsPreferred(v) ==> |v.name| >= 4
  {
    Includes(v.name, "Male") || Includes(v.name, "Daniel")
    || Includes(ToLower(v.name), "google") || Includes(v.name, "David")
  }

  /** The "google" test ignores case: a voice whose name includes "Google"
      or "GOOGLE" is preferred. */
  lemma GoogleInAnyCaseIsPreferred(v: Voice)
    requires Includes(v.name, "Google") || Includes(v.name, "GOOGLE")
    ensures IsPreferred(v)
  {
    assert ToLower("Google") == "google";
    assert ToLower("GOOGLE") == "google";
    if Includes(v.name, "Google") {
      IncludesLowered(v.name, "Google");
    } else {
      IncludesLowered(v.name, "GOOGLE");
    }
  }

  /** v is the first preferred voice of the pool, or the pool's first
      voice when none is preferred. */
  ghost predicate IsDefaultChoice(pool: seq<Voice>, v: Voice) {
    if exists i :: 0 <= i < |pool| && IsPreferred(pool[i]) then
      exists i :: 0 <= i < |pool| && pool[i] == v && IsPreferred(v)
        && forall j :: 0 <= j < i ==> !IsPreferred(pool[j])
    else
      |pool| > 0 && v == pool[0]
  }

  /** The voice loadVoices selects from a non-empty list; None for an empty one. */
  function DefaultVoice(vs: seq<Voice>): (r: Option<Voice>)
    ensures r.None? <==> |vs| == 0
    ensures r.Some? ==> r.value in vs && IsDefaultChoice(CandidatePool(vs), r.value)
  {
    if |vs| == 0 then None
    else
      var pool := CandidatePool(vs);
      match Find(pool, IsPreferred)
      case Some(i) => Some(pool[i])
      case None => Some(pool[0])
  }

  /** The voice speak() gives the utterance: the first voice whose name is
      the selected name, else the first voice; none when there are no voices. */
  function VoiceFor(voices: seq<Voice>, selected: string): (r: Option<Voice>)
    ensures r.None? <==> |voices| == 0
    ensures r.Some? ==> r.value in voices
    ensures (exists i :: 0 <= i < |voices| && voices[i].name == selected) ==>
      r.Some? && r.value.name == selected
    ensures (exists i :: 0 <= i < |voices| && voices[i].name == selected) ==>
      r.Some? && exists i :: 0 <= i < |voices| && voices[i] == r.value && voices[i].name == selected
                             && forall j :: 0 <= j < i ==> voices[j].name != selected
    ensures (forall i :: 0 <= i < |voices| ==> voices[i].name != selected) && r.Some? ==>
      r.value == voices[0]
  {
    if |voices| == 0 then None
    else match Find(voices, (v: Voice) => v.name == selected)
      case Some(i) => Some(voices[i])
      case None => Some(voices[0])
  }

  /** Math.max(lo, Math.min(x, hi)). */
  function Clamp(x: real, lo: real, hi: real): (r: real)
    requires lo <= hi
    ensures lo <= r <= hi
    ensures lo <= x <= hi ==> r == x
    ensures x < lo ==> r == lo
    ensures x > hi ==> r == hi
  {
    var below := if x < hi then x else hi;
    if lo > below then lo else below
  }

  /** The utterance speak() builds from the component's current settings. */
  function MakeUtterance(text: string, voices: seq<Voice>, selected: string,
                         rate: real, pitch: real, volume: real): (u: Utterance)
    ensures u.text == text
    ensures u.voice.None? <==> |voices| == 0
    ensures u.voice.Some? ==> u.voice.value in voices
    ensures MinRate <= u.rate <= MaxRate && MinRate <= u.pitch <= MaxRate
    ensures MinVolume <= u.volume <= MaxVolume
    ensures MinRate <= rate <= MaxRate ==> u.rate == rate
    ensures MinRate <= pitch <= MaxRate ==> u.pitch == pitch
    ensures MinVolume <= volume <= MaxVolume ==> u.volume == volume
    ensures u.voice == VoiceFor(voices, selected)
    ensures u.rate == Clamp(rate, MinRate, MaxRate) && u.pitch == Clamp(pitch, MinRate, MaxRate)
    ensures u.volume == Clamp(volume, MinVolume, MaxVolume)
  {
    Utterance(text, VoiceFor(voices, selected),
              Clamp(rate, MinRate, MaxRate), Clamp(pitch, MinRate, MaxRate),
              Clamp(volume, MinVolume, MaxVolume))
  }

  /** Whenever there is an English voice, the default voice is English. */
  lemma DefaultPrefersEnglish(vs: seq<Voice>, k: nat)
    requires k < |vs| && IsEnglish(vs[k])
    ensures DefaultVoice(vs).Some? && IsEnglish(DefaultVoice(vs).value)
  {
  }

  /** Speaking right after the voices load uses a voice named as the default. */
  lemma DefaultVoiceIsSpoken(vs: seq<Voice>)
    requires |vs| > 0
    ensures VoiceFor(vs, DefaultVoice(vs).value.name).Some?
    ensures VoiceFor(vs, DefaultVoice(vs).value.name).value.name == DefaultVoice(vs).value.name
  {
  }

  // ---------------------------------------------------------------------
  // The simulated conversation
  // ---------------------------------------------------------------------

  /** The questions simulateListening pretends to hear. */
  // The longer questions are written in pieces that join to the exact text;
  // the proofs about them below work piece by piece.
  const StatusQuestion: string := "What's the system status?"
  const ProjectQuestion: string := "Open my project files" + " and start the development environment."
  const WeatherQuestion: string := "What's the weather" + " forecast for today?"
  const MeetingQuestion: string := "Schedule a meeting" + " " + "with the team" + " " + "for tomorrow at 10 AM."
  const UserQuestions: seq<string> := [StatusQuestion, ProjectQuestion, WeatherQuestion, MeetingQuestion]

  const StatusReply: string :=
    "All systems are operating at optimal levels. CPU usage is at 12%, memory at 34%, and all network connections are secure."
  const ProjectReply: string :=
    "Opening project files. Development environment initialized. Visual Studio Code is now running with your recent project."
  const WeatherReply: string :=
    "The weather forecast for today shows a high of 72°F with partly cloudy skies. There's a 20% chance of rain in the evening."
  const MeetingReply: string :=
    "I've scheduled a team meeting for tomorrow at 10 AM. Calendar invitations have been sent to all team members."

  /** The keywords in the order they are tried, each with its reply. */
  const Rules: seq<(string, string)> := [
    ("system status", StatusReply),
    ("project files", ProjectReply),
    ("weather", WeatherReply),
    ("meeting", MeetingReply)
  ]

  /** Math.floor(Math.random() * userQuestions.length). */
  function QuestionIndex(u: real): (k: int)
    requires 0.0 <= u < 1.0
    ensures 0 <= k < |UserQuestions|
  {
    (u * (|UserQuestions| as real)).Floor
  }

  /** The reply chosen for a heard question: the reply of the first rule
      whose keyword the question includes; the empty string if none does. */
  function Response(question: string): (r: string)
    ensures r == "" <==> forall k :: 0 <= k < |Rules| ==> !Includes(question, Rules[k].0)
    ensures r != "" ==>
      exists k :: 0 <= k < |Rules| && r == Rules[k].1 && Includes(question, Rules[k].0)
                  && forall j :: 0 <= j < k ==> !Includes(question, Rules[j].0)
  {
    assert Rules[0].0 == "system status" && Rules[1].0 == "project files";
    assert Rules[2].0 == "weather" && Rules[3].0 == "meeting";
    if Includes(question, "system status") then StatusReply
    else if Includes(question, "project files") then ProjectReply
    else if Includes(question, "weather") then WeatherReply
    else if Includes(question, "meeting") then MeetingReply
    else ""
  }

  /** The status question names the status keyword. */
  lemma StatusQuestionKeywords()
    ensures Includes(StatusQuestion, "system status")
  {
    assert StatusQuestion == "What's the " + "system status" + "?";
    IncludesMiddle("What's the ", "system status", "?");
  }

  /** The project question names "project files". */
  lemma ProjectQuestionNamesProject()
    ensures Includes(ProjectQuestion, "project files")
  {
    var head := "Open my project files";
    assert head == "Open my " + "project files" + "";
    IncludesMiddle("Open my ", "project files", "");
    IncludesExtend(head, " and start the development environment.", "project files");
  }

  /** The project question does not name the status keyword: it has no 'u'. */
  lemma ProjectQuestionLacksStatus()
    ensures !Includes(ProjectQuestion, "system status")
  {
    assert 'u' !in "Open my project files" && 'u' !in " and start the development environment.";
    MissingCharExcludes(ProjectQuestion, "system status", 11);
  }

  /** The weather question names "weather". */
  lemma WeatherQuestionNamesWeather()
    ensures Includes(WeatherQuestion, "weather")
  {
    var head := "What's the weather";
    assert head == "What's the " + "weather" + "";
    IncludesMiddle("What's the ", "weather", "");
    IncludesExtend(head, " forecast for today?", "weather");
  }

  /** The weather question names neither earlier keyword: it has no 'm' and no 'j'. */
  lemma WeatherQuestionLacksEarlier()
    ensures !Includes(WeatherQuestion, "system status")
    ensures !Includes(WeatherQuestion, "project files")
  {
    var head, tail := "What's the weather", " forecast for today?";
    assert 'm' !in head && 'm' !in tail;
    MissingCharExcludes(WeatherQuestion, "system status", 5);
    assert 'j' !in head && 'j' !in tail;
    MissingCharExcludes(WeatherQuestion, "project files", 3);
  }

  /** The meeting question names "meeting". */
  lemma MeetingQuestionNamesMeeting()
    ensures Includes(MeetingQuestion, "meeting")
  {
    var head := "Schedule a meeting";
    assert head == "Schedule a " + "meeting" + "";
    IncludesMiddle("Schedule a ", "meeting", "");
    IncludesExtend(head, " " + "with the team" + " " + "for tomorrow at 10 AM.", "meeting");
    assert MeetingQuestion == head + (" " + "with the team" + " " + "for tomorrow at 10 AM.");
  }

  /** The meeting question names neither the status nor the project
      keyword: it has no 'y' and no 'j'. */
  lemma MeetingQuestionLacksStatusAndProject()
    ensures !Includes(MeetingQuestion, "system status")
    ensures !Includes(MeetingQuestion, "project files")
  {
    var a, b, c := "Schedule a meeting", "with the team", "for tomorrow at 10 AM.";
    assert 'y' !in a && 'y' !in b && 'y' !in c;
    MissingCharExcludes(MeetingQuestion, "system status", 1);
    assert 'j' !in a && 'j' !in b && 'j' !in c;
    MissingCharExcludes(MeetingQuestion, "project files", 3);
  }

  /** The meeting question does not name "weather": no piece between its
      spaces holds it, and "weather" has no space to straddle one. */
  lemma MeetingQuestionLacksWeather()
    ensures !Includes(MeetingQuestion, "weather")
  {
    var a, b, c := "Schedule a meeting", "with the team", "for tomorrow at 10 AM.";
    MissingCharExcludes(a, "weather", 0);
    MissingCharExcludes(b, "weather", 6);
    MissingCharExcludes(c, "weather", 1);
    SplitExcludes(a, ' ', b, "weather");
    SplitExcludes(a + [' '] + b, ' ', c, "weather");
  }

  /** Each question simulateListening can hear gets the reply written for it. */
  lemma QuestionsGetTheirReplies()
    ensures forall k :: 0 <= k < |UserQuestions| ==> Response(UserQuestions[k]) == Rules[k].1
  {
    StatusQuestionKeywords();
    ProjectQuestionNamesProject();
    ProjectQuestionLacksStatus();
    WeatherQuestionNamesWeather();
    WeatherQuestionLacksEarlier();
    MeetingQuestionNamesMeeting();
    MeetingQuestionLacksStatusAndProject();
    MeetingQuestionLacksWeather();
  }

  /** The state of the VoiceControl component: the voice settings, the
      speaking, paused and listening flags, and the conversation log. */
  class Panel {
    /** Whether the window offers speech synthesis at all. */
    const synthesisAvailable: bool
    var voices: seq<Voice>
    var selectedVoice: string
    var rate: real
    var pitch: real
    var volume: real
    var isSpeaking: bool
    var isPaused: bool
    var isListening: bool
    var conversation: seq<Message>

    constructor (synthesisAvailable: bool)
      ensures this.synthesisAvailable == synthesisAvailable
      ensures voices == [] && selectedVoice == ""
      ensures rate == 1.0 && pitch == 1.0 && volume == 1.0
      ensures !isSpeaking && !isPaused && !isListening
      ensures conversation == []
    {
      this.synthesisAvailable := synthesisAvailable;
      voices, selectedVoice := [], "";
      rate, pitch, volume := 1.0, 1.0, 1.0;
      isSpeaking, isPaused, isListening := false, false, false;
      conversation := [];
    }

    /** loadVoices: a non-empty list replaces the voices and selects the
        default; an empty list leaves everything as it was. */
    method LoadVoices(available: seq<Voice>)
      requires synthesisAvailable
      modifies this
      ensures |available| > 0 ==> voices == available && selectedVoice == DefaultVoice(available).value.name
      ensures |available| == 0 ==> voices == old(voices) && selectedVoice == old(selectedVoice)
      ensures rate == old(rate) && pitch == old(pitch) && volume == old(volume)
      ensures isSpeaking == old(isSpeaking) && isPaused == old(isPaused) && isListening == old(isListening)
      ensures conversation == old(conversation)
    {
      if |available| > 0 {
        voices := available;
        selectedVoice := DefaultVoice(available).value.name;
      }
    }

    /** The settings as the current render sees them. */
    function Current(): Settings
      reads this
    {
      Settings(voices, selectedVoice, rate, pitch, volume)
    }

    /** A speak closure that captured the settings seen: without speech
        synthesis, or when setting up the utterance throws, the text goes
        straight into the conversation; otherwise the utterance is built from
        the captured settings and handed over, and the log waits for its
        start event. */
    method SpeakWith(text: string, seen: Settings, setupThrows: bool) returns (u: Option<Utterance>)
      modifies this
      ensures !synthesisAvailable || setupThrows ==>
        u.None? && conversation == old(conversation) + [Message(Jarvis, text)]
      ensures synthesisAvailable && !setupThrows ==>
        u == Some(MakeUtterance(text, seen.voices, seen.selected, seen.rate, seen.pitch, seen.volume))
        && conversation == old(conversation)
      ensures voices == old(voices) && selectedVoice == old(selectedVoice)
      ensures rate == old(rate) && pitch == old(pitch) && volume == old(volume)
      ensures isSpeaking == old(isSpeaking) && isPaused == old(isPaused) && isListening == old(isListening)
    {
      if !synthesisAvailable || setupThrows {
        conversation := conversation + [Message(Jarvis, text)];
        u := None;
      } else {
        u := Some(MakeUtterance(text, seen.voices, seen.selected, seen.rate, seen.pitch, seen.volume));
      }
    }

    /** speak(text) called straight from a click: it reads the settings
        current at that moment. */
    method Speak(text: string, setupThrows: bool) returns (u: Option<Utterance>)
      modifies this
      ensures !synthesisAvailable || setupThrows ==>
        u.None? && conversation == old(conversation) + [Message(Jarvis, text)]
      ensures synthesisAvailable && !setupThrows ==>
        u == Some(MakeUtterance(text, voices, selectedVoice, rate, pitch, volume))
        && conversation == old(conversation)
      ensures voices == old(voices) && selectedVoice == old(selectedVoice)
      ensures rate == old(rate) && pitch == old(pitch) && volume == old(volume)
      ensures isSpeaking == old(isSpeaking) && isPaused == old(isPaused) && isListening == old(isListening)
    {
      u := SpeakWith(text, Current(), setupThrows);
    }

    /** The utterance's onstart: speaking, not paused, and its text logged. */
    method OnStart(u: Utterance)
      modifies this
      ensures isSpeaking && !isPaused
      ensures conversation == old(conversation) + [Message(Jarvis, u.text)]
      ensures voices == old(voices) && selectedVoice == old(selectedVoice)
      ensures rate == old(rate) && pitch == old(pitch) && volume == old(volume)
      ensures isListening == old(isListening)
    {
      isSpeaking, isPaused := true, false;
      conversation := conversation + [Message(Jarvis, u.text)];
    }

    /** The utterance's onend: neither speaking nor paused. */
    method OnEnd()
      modifies this
      ensures !isSpeaking && !isPaused
      ensures conversation == old(conversation)
      ensures voices == old(voices) && selectedVoice == old(selectedVoice)
      ensures rate == old(rate) && pitch == old(pitch) && volume == old(volume)
      ensures isListening == old(isListening)
    {
      isSpeaking, isPaused := false, false;
    }

    /** The utterance's onerror: neither speaking nor paused, and an apology logged. */
    method OnError()
      modifies this
      ensures !isSpeaking && !isPaused
      ensures conversation == old(conversation) + [Message(Jarvis, SpeechErrorReply)]
      ensures voices == old(voices) && selectedVoice == old(selectedVoice)
      ensures rate == old(rate) && pitch == old(pitch) && volume == old(volume)
      ensures isListening == old(isListening)
    {
      isSpeaking, isPaused := false, false;
      conversation := conversation + [Message(Jarvis, SpeechErrorReply)];
    }

    /** The delayed speechSynthesis.speak call threw: not speaking, an
        apology logged, and the paused flag left as it was. */
    method OnSpeakThrew()
      modifies this
      ensures !isSpeaking && isPaused == old(isPaused)
      ensures conversation == old(conversation) + [Message(Jarvis, SpeechErrorReply)]
      ensures voices == old(voices) && selectedVoice == old(selectedVoice)
      ensures rate == old(rate) && pitch == old(pitch) && volume == old(volume)
      ensures isListening == old(isListening)
    {
      isSpeaking := false;
      conversation := conversation + [Message(Jarvis, SpeechErrorReply)];
    }

    /** togglePause: flips the paused flag when speech synthesis exists. */
    method TogglePause()
      modifies this
      ensures isPaused == (if synthesisAvailable then !old(isPaused) else old(isPaused))
      ensures isSpeaking == old(isSpeaking) && isListening == old(isListening)
      ensures conversation == old(conversation)
      ensures voices == old(voices) && selectedVoice == old(selectedVoice)
      ensures rate == old(rate) && pitch == old(pitch) && volume == old(volume)
    {
      if synthesisAvailable {
        if isPaused {
          isPaused := false;
        } else {
          isPaused := true;
        }
      }
    }

    /** stopSpeech: neither speaking nor paused when speech synthesis exists. */
    method StopSpeech()
      modifies this
      ensures synthesisAvailable ==> !isSpeaking && !isPaused
      ensures !synthesisAvailable ==> isSpeaking == old(isSpeaking) && isPaused == old(isPaused)
      ensures isListening == old(isListening)
      ensures conversation == old(conversation)
      ensures voices == old(voices) && selectedVoice == old(selectedVoice)
      ensures rate == old(rate) && pitch == old(pitch) && volume == old(volume)
    {
      if synthesisAvailable {
        isSpeaking, isPaused := false, false;
      }
    }

    /** simulateListening, first step: the listening flag goes up. The
        returned settings are those of the click's render, which the delayed
        reply speaks with even if the state changes in between. */
    method StartListening() returns (captured: Settings)
      modifies this
      ensures captured == old(Current())
      ensures isListening
      ensures isSpeaking == old(isSpeaking) && isPaused == old(isPaused)
      ensures conversation == old(conversation)
      ensures voices == old(voices) && selectedVoice == old(selectedVoice)
      ensures rate == old(rate) && pitch == old(pitch) && volume == old(volume)
    {
      captured := Current();
      isListening := true;
    }

    /** simulateListening, second step: a question is "heard", logged as the
        user's, and listening stops. */
    method HearQuestion(draw: real) returns (question: string)
      requires 0.0 <= draw < 1.0
      modifies this
      ensures question in UserQuestions
      ensures question == UserQuestions[QuestionIndex(draw)]
      ensures !isListening
      ensures conversation == old(conversation) + [Message(User, question)]
      ensures isSpeaking == old(isSpeaking) && isPaused == old(isPaused)
      ensures voices == old(voices) && selectedVoice == old(selectedVoice)
      ensures rate == old(rate) && pitch == old(pitch) && volume == old(volume)
    {
      question := UserQuestions[QuestionIndex(draw)];
      conversation := conversation + [Message(User, question)];
      isListening := false;
    }

    /** simulateListening, last step: the reply to the question is spoken
        with the settings captured when listening started. */
    method Reply(question: string, captured: Settings, setupThrows: bool) returns (u: Option<Utterance>)
      modifies this
      ensures !synthesisAvailable || setupThrows ==>
        u.None? && conversation == old(conversation) + [Message(Jarvis, Response(question))]
      ensures synthesisAvailable && !setupThrows ==>
        u == Some(MakeUtterance(Response(question), captured.voices, captured.selected,
                                captured.rate, captured.pitch, captured.volume))
        && conversation == old(conversation)
      ensures voices == old(voices) && selectedVoice == old(selectedVoice)
      ensures rate == old(rate) && pitch == old(pitch) && volume == old(volume)
      ensures isSpeaking == old(isSpeaking) && isPaused == old(isPaused) && isListening == old(isListening)
    {
      u := SpeakWith(Response(question), captured, setupThrows);
    }
  }

  /** Voices that load while the panel is listening do not reach the reply:
      the reply is spoken with the empty voice list of the click's render,
      so its utterance carries no voice. */
  method ReplyUsesVoicesSeenAtClick(v: Voice, draw: real) returns (u: Option<Utterance>)
    requires 0.0 <= draw < 1.0
    ensures u.Some? && u.value.voice.None?
  {
    var panel := new Panel(true);
    var captured := panel.StartListening();
    panel.LoadVoices([v]);
    var question := panel.HearQuestion(draw);
    u := panel.Reply(question, captured, false);
  }
}

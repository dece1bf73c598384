# J.A.R.V.I.S. demo site: the rain simulation and the voice panel rules

This project models the two pieces of the site that hold logic of their own
and proves properties of them in Dafny.

- `matrix_rain.dfy` (module `MatrixRain`) models the falling-glyph background
  (`components/matrix-rain.tsx`). The class `Rain` holds the canvas width and
  height, the column count fixed at setup, and the `drops` array of row
  positions, one per column. The constructor is the setup loop. `Resize` is
  the window's resize listener. `Tick` is one call of `draw`: it walks the
  columns in index order, returns the glyph cells it paints, and updates the
  array in place. Every `Math.random()` value is an explicit real parameter,
  and each operation that uses one requires it to lie in [0, 1).
  The functions `InitialDrop`, `GlyphIndex`, `Step` and `Frame` state what one
  column gets from its draw. `ColumnRun` and `RunTicks` follow columns over
  many ticks, and the lemmas about them state what holds after any number of
  ticks.
- `voice_control.dfy` (module `VoiceControl`) models the rules inside
  `components/voice-control.tsx`, with the browser's speech API reduced to
  the utterance settings handed to it and the events it sends back. These
  rules cover the default-voice choice (English filter, then the first
  preferred name, else the first voice), the voice fallback and the clamping
  of rate, pitch and volume when speaking, and the keyword chain that picks
  the reply to a simulated question. They are pure functions. The class
  `Panel` holds the component's state: the voices, the selected name, the
  settings, the speaking, paused and listening flags, and the append-only
  conversation log. Each event handler is a method with a `modifies` clause.

Three behaviours of the code that a reader might not expect; the model
follows the code:

- A resize changes only the canvas width and height. The column count and
  the `drops` array are computed once at setup (components/matrix-rain.tsx:28)
  and are never rebuilt, but later ticks compare against the new height
  (components/matrix-rain.tsx:63).
- The comment on the starting row says "Start above the canvas"
  (components/matrix-rain.tsx:33), but `Math.floor(Math.random() * -100)`
  lies in [-100, 0]: a draw of exactly 0 gives row 0, the top row itself.
- The delayed reply of `simulateListening` calls the `speak` closure of the
  render in which the button was clicked (components/voice-control.tsx:250-285),
  so it uses the voices and settings of that moment, not the current ones.
  `StartListening` returns those settings and `Reply` speaks with them.

## Model

| member | source | states |
|---|---|---|
| `MatrixRain.Columns` | components/matrix-rain.tsx:27-28 | the column count n is floor(width / 14): n * 14 <= width < (n + 1) * 14 |
| `MatrixRain.InitialDrop` | components/matrix-rain.tsx:33 | a starting row lies in [-100, 0], at or above the top edge, and is 0 only for a zero draw |
| `MatrixRain.GlyphIndex` | components/matrix-rain.tsx:48 | the glyph index lies in [0, chars.length); the glyph set is non-empty |
| `MatrixRain.Step` | components/matrix-rain.tsx:60-65 | a column ends a tick at its old row + 1 or at 0; it differs from old + 1 exactly when (old + 1) * 14 > height and the draw exceeds 0.975, so a column still on screen always advances by one |
| `MatrixRain.StepAll` | components/matrix-rain.tsx:46-66 | one tick keeps the number of columns |
| `MatrixRain.Frame` | components/matrix-rain.tsx:48-57 | one cell per column; every painted glyph is taken from the glyph set |
| `MatrixRain.Rain.constructor` | components/matrix-rain.tsx:16-34 | after setup the canvas has the window's size, there are floor(width / 14) drops, and each is InitialDrop of its draw, in [-100, 0] |
| `MatrixRain.Rain.Resize` | components/matrix-rain.tsx:16-19 | a resize sets width and height and leaves the column count and every drop unchanged |
| `MatrixRain.Rain.Tick` | components/matrix-rain.tsx:37-66 | the cells painted are column i at (i * 14, old drops[i] * 14), read before the move; the new drops are Step of each old drop against the current height and that column's own draw; the length is kept |
| `MatrixRain.ColumnRun` | components/matrix-rain.tsx:46-66 | one column followed over repeated `draw` calls; a column that ends above the top edge has never been reset, only fallen |
| `MatrixRain.ColumnRunAdvancesOrRestarts` | components/matrix-rain.tsx:60-65 | after k ticks a column is either k rows lower, or it was reset and lies in [0, k): it never moves up except by the reset |
| `MatrixRain.ColumnRunOnScreen` | components/matrix-rain.tsx:63-64 | while a column's glyph stays within the canvas height, k ticks move it down exactly k rows, whatever the resizes and draws |
| `MatrixRain.ColumnRunEntersBeforeReset` | components/matrix-rain.tsx:31-65 | a drop starting above the top edge reaches row 0 before any reset can happen |
| `MatrixRain.RunTicks` | components/matrix-rain.tsx:46-66 | any number of ticks keeps the number of columns |
| `MatrixRain.RunTicksColumnwise` | components/matrix-rain.tsx:46-66 | after any number of ticks, column i depends only on its own start, the heights and its own reset draws |
| `VoiceControl.Includes` | components/voice-control.tsx:74 | `includes`: sub occurs in s at some position; only a string no longer than s can occur, and the empty string always does |
| `VoiceControl.LowerChar` | components/voice-control.tsx:85 | an ASCII capital becomes its small letter, 32 code points later; every other character is kept; the result is never a capital |
| `VoiceControl.ToLower` | components/voice-control.tsx:85 | lowercasing keeps the length, turns each ASCII capital into its own small letter, leaves no ASCII capital, and changes exactly the ASCII capitals |
| `VoiceControl.IncludesLowered` | components/voice-control.tsx:85 | an occurrence survives lowercasing: if s includes sub, the lowercased s includes the lowercased sub |
| `VoiceControl.Find` | components/voice-control.tsx:81-87 | `find` gives the first index satisfying the test, or none when no element does |
| `VoiceControl.IsEnglish` | components/voice-control.tsx:74 | a voice is English when its lang includes "en" or "EN"; a lang starting with "en" (such as "en-GB") is English, and one shorter than two characters never is |
| `VoiceControl.EnglishVoices` | components/voice-control.tsx:73-75 | the filter keeps exactly the voices whose lang includes "en" or "EN": in their original order, each with its multiplicity, and nothing else |
| `VoiceControl.CandidatePool` | components/voice-control.tsx:77 | the pool is the English voices when there is one, otherwise all voices; it is empty only for an empty list |
| `VoiceControl.IsPreferred` | components/voice-control.tsx:83-86 | the name test of the default search; any name it accepts has at least four characters |
| `VoiceControl.GoogleInAnyCaseIsPreferred` | components/voice-control.tsx:85 | because the name is lowercased before the test, a name including "Google" or "GOOGLE" is preferred |
| `VoiceControl.DefaultVoice` | components/voice-control.tsx:80-92 | for a non-empty list the default is one of the voices: the first pool voice whose name includes "Male", "Daniel" or "David" or whose lowercased name includes "google", else the pool's first voice; an empty list gives no default |
| `VoiceControl.DefaultPrefersEnglish` | components/voice-control.tsx:73-87 | whenever some voice is English, the default voice is English |
| `VoiceControl.VoiceFor` | components/voice-control.tsx:141-150 | speaking uses the first voice named as the selected voice when one exists, else the first voice; no voice is set for an empty list |
| `VoiceControl.DefaultVoiceIsSpoken` | components/voice-control.tsx:89-150 | speaking right after the voices load uses a voice with the default voice's name |
| `VoiceControl.Clamp` | components/voice-control.tsx:153-155 | the clamped value lies in [lo, hi], equals the input when it is in range, and is the nearer bound otherwise |
| `VoiceControl.MakeUtterance` | components/voice-control.tsx:137-155 | the utterance carries the text and the voice `VoiceFor` picks (none for an empty list); rate and pitch are the settings clamped to [0.1, 2] and volume the setting clamped to [0, 1]: equal to the setting when it is in range, the nearer bound otherwise |
| `VoiceControl.QuestionIndex` | components/voice-control.tsx:262 | the random question index lies within the four questions |
| `VoiceControl.Response` | components/voice-control.tsx:268-282 | the reply is the empty string exactly when the question includes no keyword; otherwise it is the reply of the first keyword, in the order "system status", "project files", "weather", "meeting", that the question includes |
| `VoiceControl.StatusQuestionKeywords` | components/voice-control.tsx:256-270 | the status question includes "system status" |
| `VoiceControl.ProjectQuestionNamesProject` | components/voice-control.tsx:257-273 | the project question includes "project files" |
| `VoiceControl.ProjectQuestionLacksStatus` | components/voice-control.tsx:257-270 | the project question does not include "system status" |
| `VoiceControl.WeatherQuestionNamesWeather` | components/voice-control.tsx:258-276 | the weather question includes "weather" |
| `VoiceControl.WeatherQuestionLacksEarlier` | components/voice-control.tsx:258-273 | the weather question includes neither "system status" nor "project files" |
| `VoiceControl.MeetingQuestionNamesMeeting` | components/voice-control.tsx:259-279 | the meeting question includes "meeting" |
| `VoiceControl.MeetingQuestionLacksStatusAndProject` | components/voice-control.tsx:259-273 | the meeting question includes neither "system status" nor "project files" |
| `VoiceControl.MeetingQuestionLacksWeather` | components/voice-control.tsx:259-276 | the meeting question does not include "weather" |
| `VoiceControl.QuestionsGetTheirReplies` | components/voice-control.tsx:255-282 | each of the four questions gets the reply written for it, never the empty string |
| `VoiceControl.Panel.constructor` | components/voice-control.tsx:15-39 | the initial state: no voices, empty selection, rate, pitch and volume 1, all flags off, empty conversation |
| `VoiceControl.Panel.LoadVoices` | components/voice-control.tsx:63-97 | a non-empty list replaces the voices and selects DefaultVoice's name; an empty list leaves the voices and the selection unchanged; nothing else changes |
| `VoiceControl.Panel.SpeakWith` | components/voice-control.tsx:124-212 | a `speak` closure that captured some settings: without speech synthesis, or when building the utterance throws, the text is appended to the conversation; otherwise the utterance is MakeUtterance of the captured settings and the log is unchanged; the flags and settings are untouched |
| `VoiceControl.Panel.Speak` | components/voice-control.tsx:124-212 | `speak` called from a click: as `SpeakWith`, with the settings current at that moment |
| `VoiceControl.Panel.OnStart` | components/voice-control.tsx:158-164 | speaking, not paused, and exactly the utterance's text appended as the assistant's |
| `VoiceControl.Panel.OnEnd` | components/voice-control.tsx:166-170 | neither speaking nor paused; the log is unchanged |
| `VoiceControl.Panel.OnError` | components/voice-control.tsx:172-190 | neither speaking nor paused, and exactly the apology appended |
| `VoiceControl.Panel.OnSpeakThrew` | components/voice-control.tsx:193-207 | not speaking, the paused flag kept, and exactly the apology appended |
| `VoiceControl.Panel.TogglePause` | components/voice-control.tsx:216-232 | with speech synthesis the paused flag flips; without it nothing changes |
| `VoiceControl.Panel.StopSpeech` | components/voice-control.tsx:235-247 | with speech synthesis neither speaking nor paused afterwards; without it nothing changes |
| `VoiceControl.Panel.StartListening` | components/voice-control.tsx:250-251 | the listening flag is set and nothing else changes; the settings of the click's render are returned for the delayed reply |
| `VoiceControl.Panel.HearQuestion` | components/voice-control.tsx:254-264 | one of the four questions is chosen by the draw and appended as the user's, and listening stops |
| `VoiceControl.Panel.Reply` | components/voice-control.tsx:266-285 | the reply Response(question) is spoken as `SpeakWith` speaks it, with the settings captured when listening started |
| `VoiceControl.ReplyUsesVoicesSeenAtClick` | components/voice-control.tsx:141-150 | voices that load while the panel listens do not reach the reply: the utterance carries no voice |

## Left out

- The early returns of the effect when there is no canvas element or no 2D context (components/matrix-rain.tsx:9-13): the model starts from a canvas that exists, since without one nothing is drawn and no state is kept.
- Canvas painting (the translucent overlay, gradients, colours, font): these are browser drawing calls. `Tick` returns only the cells it would paint.
- `setInterval`/`clearInterval`, the `setTimeout` delays and the resize event registration. They are timer and event plumbing. The model's methods are the callbacks those timers and events run, called one at a time.
- `Math.random` is not modelled as a distribution. Each draw is a parameter, so the 2.5% reset rate is not stated.
- The real arithmetic is exact. Floating-point rounding of `Math.random() * -100`, `Math.random() * chars.length` and the clamps is not modelled, and neither is a NaN setting.
- `MatrixRain.Rain.Tick`: the reset draw is taken only when the column is below the canvas, because `&&` short-circuits. The model gives every column a draw and ignores it otherwise. Which value a column gets is unaffected.
- The browser speech API (`getVoices`, `cancel`, `speak`, `pause`, `resume`, `SpeechSynthesisUtterance`) and `console` logging are left out. The model keeps the utterance settings and turns the utterance's callbacks into the methods `OnStart`, `OnEnd` and `OnError`.
- Browser exceptions are reduced to what the handlers do with them. `Speak` takes a `setupThrows` flag for the outer `catch`, and `OnSpeakThrew` is the `catch` around the delayed `speak` call. A throw inside `TogglePause`, `StopSpeech` or `loadVoices` is not modelled; the source only logs it.
- `VoiceControl.Panel.LoadVoices`: the retry after 500 ms on an empty list is timer plumbing. The method leaves the state unchanged.
- `VoiceControl.Panel`: `isSpeechSupported` and the `typeof window` checks are folded into the one constant `synthesisAvailable`. `utteranceRef` is written but never read, so it is not kept.
- `VoiceControl.ToLower` lowercases only the ASCII letters. JavaScript's full Unicode case mapping is not modelled; for instance, the Kelvin sign lowercases to 'k'.
- The setters the UI calls directly (`setSelectedVoice`, `setRate`, `setPitch`, `setVolume`, `setCustomText`, `setShowAdvanced`) are plain assignments and are not modelled. The slider ranges and steps and the `toFixed` display are left out too. The clamps in `MakeUtterance` hold for any setting.
- React hooks, JSX rendering, framer-motion variants, and the static pages and components (navbar, footer, task cards, OS control cards, page layout) are left out. They hold no logic beyond markup.

# SIGNORA recogniser and sign avatar, modelled in Dafny

SIGNORA is a browser page that works in two directions.

**Sign to speech** (`static/js/script.js`). The camera hands over hand
landmarks. Every 200 ms a tick flattens them into a vector. It waits for the
hand count to settle and measures the motion since the previous tick. Then it
does one of two things:

- In STATIC mode it asks the classifier for a letter once the hand has been
  still long enough. Letters build up the current word.
- In MOTION mode it records a 30-frame clip and asks the classifier for a
  whole word.

Removing the hand moves the current word into the sentence buffer. A 300 ms
handler waits for 1.5 s of silence. It then passes the trimmed buffer through
the rule-based `inferSentence`. The result is translated whole
(`translateSentence`) or word by word (`translateWord`) and spoken.

**Speech to sign** (`static/js/script-avatar.js`). `signWord` lower-cases the
recognised text and drops punctuation. It splits the text into words and keeps
those that `SIGN_MAP` knows. `playSentence` then plays one animation clip per
word, chained through the loader's callback and a timer.

The model has one module per concern:

| file | module | contents |
|---|---|---|
| `Wrappers.dfy` | `Wrappers` | `Option` |
| `JsText.dfy` | `JsText` | string operations, ASCII case mapping only |
| `Motion.dfy` | `Motion` | landmark vectors, `calculateMotion` and its loop |
| `Pipeline.dfy` | `Pipeline` | see below |
| `Recognizer.dfy` | `Recognizer` | see below |
| `Inference.dfy` | `Inference` | `inferSentence` |
| `Translation.dfy` | `Translation` | both translation tables, both translate functions, the spoken text |
| `SignAvatar.dfy` | `SignAvatar` | see below |

- **JsText** covers `trim`, `toUpperCase`/`toLowerCase`, `includes`, `split(" ")`/`join(" ")`, `replace(/[^\w\s]/g, "")` and `split(/\s+/)`.
- **Pipeline** holds the recogniser's module-level variables as one `State` value.
  - There is one function per event: tick, reply, timer, camera frame.
  - It has the invariant every event keeps, and the lemmas about the handlers.
- **Recognizer** is the `Session` class. Its fields are those variables, and it has one method per handler.
  - Each method updates the fields step by step.
  - Each method's contract ties the new fields to the Pipeline function of the same event.
- **SignAvatar** covers `SIGN_MAP` (in its five commented groups), the `signWord` filter and the `Player` class.
  - `Player` has the `isPlaying` flag and `playSentence`/`signWord` as methods.
  - Each method returns the load or play it leaves pending.

Asynchrony is modelled as separate events:

- A tick that reaches a `fetch` ends by returning a `Request`.
- The code after the `await` is a reply event: `MotionReply`, `StaticReply`.
- `setTimeout` callbacks are events too: `Unlock`, the clip-finished event, and the 150 ms display as the pure `Spoken`.
- Any interleaving of events is a `seq<Event>` run from some state (`Pipeline.Run`). `Pipeline.RunRequests` and `Pipeline.RunSpoken` collect what such a run sends and speaks.

Timestamps are `nat` milliseconds. `0` stands for the `null` of `handRemovedTime` and for the unset `handStaticSince`. The code only tests these two for truthiness, so `0` and `null` behave alike. `0` also stands for the initial `null` of `lastDetectedHandCount`. That variable is compared with `!==` against the hand count, which is always 1 or 2, so `0` and `null` both compare unequal.

## Model

| member | source | states |
|---|---|---|
| JsText.TrimIsSlice | static/js/script.js:608 | `trim` returns a contiguous slice of its input. Only whitespace is removed, and the result neither starts nor ends with whitespace |
| JsText.LowerHasNoUpper | static/js/script-avatar.js:173 | after `toLowerCase` no upper-case ASCII letter remains |
| JsText.JoinSplit | static/js/script.js:698-701 | `join(" ")` undoes `split(" ")` |
| JsText.SplitJoin | static/js/script.js:698-701 | `split(" ")` undoes `join(" ")` of a non-empty list of pieces that hold no space |
| JsText.KeepWordAndSpace | static/js/script-avatar.js:174 | `replace(/[^\w\s]/g, "")` keeps exactly the word and whitespace characters of the input |
| JsText.SplitWsPieces | static/js/script-avatar.js:175 | the pieces of `split(/\s+/)` hold no whitespace, and concatenated they give the input with its whitespace removed |
| JsText.SplitWsNoSpace | static/js/script-avatar.js:175 | a text without whitespace splits into itself alone |
| JsText.SplitWsFirst | static/js/script-avatar.js:175 | a whitespace-free piece followed by a whitespace run is cut off whole, and splitting resumes after the whole run |
| JsText.SplitWsWeave | static/js/script-avatar.js:175 | see note 14 below the table |
| Motion.Flatten | static/js/script.js:205-207 | the flat vector has twice as many entries as landmarks: every x in order, then every y |
| Motion.HandCount | static/js/script.js:209 | the count is 2 exactly when the vector has 84 entries, otherwise 1 |
| Motion.HandCountOfHands | static/js/script.js:125-134 | with 21 landmarks per hand, one hand reads as 1 and two concatenated hands read as 2 |
| Motion.CalculateMotion | static/js/script.js:181-188 | the loop returns `MotionOf`: Infinity without a snapshot, NaN for an empty or longer current vector, otherwise the mean absolute difference |
| Motion.MotionNonNegative | static/js/script.js:181-188 | a finite magnitude is never negative |
| Motion.MotionZeroIff | static/js/script.js:181-188 | against a snapshot at least as long, the magnitude is 0 exactly when the vectors agree on the current vector's positions |
| Motion.MotionSymmetric | static/js/script.js:181-188 | for vectors of one length, swapping current and snapshot gives the same magnitude |
| Motion.MissingSnapshotMovesSameVectorStill | static/js/script.js:182 | no snapshot counts as moving; an unchanged non-empty vector counts as still |
| Motion.ThresholdGap | static/js/script.js:320-364 | no magnitude is both moving and still; NaN and exactly 0.05 are neither |
| Pipeline.InitInv | static/js/script.js:8-65 | the declared initial values satisfy the invariant |
| Pipeline.ResultsInv | static/js/script.js:119-176 | a camera frame keeps the invariant |
| Pipeline.StaticTickInv | static/js/script.js:317-371 | the STATIC branch of the tick keeps the invariant |
| Pipeline.TickInv | static/js/script.js:199-371 | a tick keeps the invariant |
| Pipeline.MotionReplyInv | static/js/script.js:285-308 | the motion reply keeps the invariant |
| Pipeline.StaticReplyInv | static/js/script.js:384-404 | the static reply keeps the invariant |
| Pipeline.PollInv | static/js/script.js:672-731 | the finalisation handler keeps the invariant |
| Pipeline.StepInv | static/js/script.js:119-731 | every event keeps the invariant |
| Pipeline.RunInv | static/js/script.js:252-262 | see note 1 below the table |
| Pipeline.HandCountChangeResets | static/js/script.js:212-230 | see note 2 below the table |
| Pipeline.UnsettledTickOnlySnapshots | static/js/script.js:232-235 | within 300 ms of a hand-count change a tick only stores the snapshot and sends nothing |
| Pipeline.EnteringMotion | static/js/script.js:320-349 | see note 3 below the table |
| Pipeline.MotionStartCounting | static/js/script.js:320-325 | a settled STATIC tick increments the counter on a moving magnitude; otherwise the counter becomes 0 |
| Pipeline.StillnessBroken | static/js/script.js:358-364 | a settled STATIC tick that is not still clears the dwell timer, breaks the still streak unless it switches to MOTION, and sends nothing |
| Pipeline.StaticGate | static/js/script.js:353-382 | see note 4 below the table |
| Pipeline.ClipGrows | static/js/script.js:252-262 | in MOTION mode a clip of fewer than 30 frames gains the current vector, and nothing is sent |
| Pipeline.MotionSendOnce | static/js/script.js:264-283 | see note 5 below the table |
| Pipeline.SentClipBlocksTick | static/js/script.js:247-250 | while the clip is out and the hand count holds, a tick sends nothing and the clip stays marked as sent |
| Pipeline.SentClipBlocksTicks | static/js/script.js:247-250 | any number of such ticks sends no motion request |
| Pipeline.OneMotionRequestPerRun | static/js/script.js:264-267 | any sequence of ticks with unchanged landmarks sends at most one motion clip |
| Pipeline.SentClipStays | static/js/script.js:247-250 | a sent clip stays marked through any event other than hand removal, a tick at a new hand count or the motion reply, and no such event sends a clip |
| Pipeline.SentClipBlocksRun | static/js/script.js:247-250 | from a sent clip, no run free of those three events sends a motion request |
| Pipeline.OneMotionRequestPerClip | static/js/script.js:264-267 | see note 15 below the table |
| Pipeline.MotionReplyResets | static/js/script.js:285-308 | see note 6 below the table |
| Pipeline.StaticReplyEffect | static/js/script.js:384-404 | see note 7 below the table |
| Pipeline.RepeatedLabelOnce | static/js/script.js:393-396 | the same static reply twice has the effect of one |
| Pipeline.HandRemoval | static/js/script.js:149-175 | see note 8 below the table |
| Pipeline.PushMotionWordEffect | static/js/script.js:414-424 | a non-empty word is appended with a space, starts the silence timer and clears the spoken latch; an empty word changes nothing |
| Pipeline.PollEffect | static/js/script.js:672-731 | see note 9 below the table |
| Pipeline.PollsSpeakOnce | static/js/script.js:674-729 | polls alone speak at most once |
| Pipeline.SpokenLatchHolds | static/js/script.js:674 | once the spoken latch is set, polls alone change nothing and speak nothing |
| Pipeline.SpokenStays | static/js/script.js:674 | the spoken latch survives every event that puts no word on the buffer, and no such event hands on a sentence while it is set |
| Pipeline.SpokenLatchHoldsInRun | static/js/script.js:674 | once the latch is set, no run in which no word enters the buffer speaks anything |
| Pipeline.OneSentencePerWords | static/js/script.js:672-731 | see note 16 below the table |
| Recognizer.FlattenLandmarks | static/js/script.js:205-207 | the two push loops build exactly `Flatten` of the landmarks |
| Recognizer.ClipVector | static/js/script.js:269-272 | the loop over 30 frames builds their concatenation |
| Recognizer.Session.constructor | static/js/script.js:8-65 | the fields start at the declared initial values |
| Recognizer.Session.OnResults | static/js/script.js:119-176 | the fields become `Pipeline.Results` of the old fields |
| Recognizer.Session.FlushCurrentWord | static/js/script.js:151-158 | the fields become `Pipeline.FlushWord` of the old fields |
| Recognizer.Session.ReleaseHandState | static/js/script.js:161-163 | the fields become `Pipeline.ReleaseHand` of the old fields |
| Recognizer.Session.ResetMotionState | static/js/script.js:165-171 | the fields become `Pipeline.ResetMotion` of the old fields |
| Recognizer.Session.Tick | static/js/script.js:199-382 | the new fields and the request are `Pipeline.Tick` of the old fields |
| Recognizer.Session.RestartStabilityState | static/js/script.js:212-217 | the fields become `Pipeline.RestartStability` of the old fields |
| Recognizer.Session.MotionModeTick | static/js/script.js:245-312 | the new fields and the request are `Pipeline.MotionTick` of the old fields |
| Recognizer.Session.StaticModeTick | static/js/script.js:317-382 | the new fields and the request are `Pipeline.StaticTick` of the old fields |
| Recognizer.Session.StartClipState | static/js/script.js:328-335 | the fields become `Pipeline.StartClip` of the old fields |
| Recognizer.Session.ClearForMotionState | static/js/script.js:337-342 | the fields become `Pipeline.ClearForMotion` of the old fields |
| Recognizer.Session.PushMotionWord | static/js/script.js:414-424 | the fields become `Pipeline.PushMotionWord` of the old fields |
| Recognizer.Session.OnMotionReply | static/js/script.js:285-308 | the fields become `Pipeline.MotionReply` of the old fields |
| Recognizer.Session.OnStaticReply | static/js/script.js:384-404 | the fields become `Pipeline.StaticReply` of the old fields |
| Recognizer.Session.Unlock | static/js/script.js:400-402 | the lock is released and nothing else changes |
| Recognizer.Session.ClearSentenceState | static/js/script.js:724-729 | the fields become `Pipeline.ClearSentence` of the old fields |
| Recognizer.Session.Poll | static/js/script.js:672-731 | the new fields and the sentence handed on are `Pipeline.Poll` of the old fields |
| Inference.InferredIsCanonicalOrInput | static/js/script.js:607-668 | when a rule matches the result is one of the canonical sentences; when none matches it is the untouched input |
| Inference.RuleMatchesIff | static/js/script.js:613-665 | a rule matches exactly when one of the chain's keyword conditions holds, each keyword tested as a substring |
| Inference.ThankWins | static/js/script.js:613 | any text containing THANK becomes "Thank you", whatever else it holds |
| Inference.WaterWithoutSubject | static/js/script.js:626-630 | see note 10 below the table |
| Inference.HelpWithMe | static/js/script.js:638-639 | a HELP sentence containing ME becomes "I need help" |
| Inference.HelpMeBranchUnreachable | static/js/script.js:640 | "Do you want me to help?" is never produced |
| Inference.NameHasMe | static/js/script.js:621-622 | any text containing NAME contains ME |
| Inference.NameQuestionUnreachable | static/js/script.js:621-624 | "What is your name?" is never produced |
| Inference.LetterIInsideWordRule | static/js/script.js:610 | the I inside HI counts as a first-person subject: "OKAY HI" becomes "I am okay" |
| Inference.GoInsideWordRule | static/js/script.js:649-653 | GO is found inside GOOD: "GOOD" becomes "Do you want to go?" |
| Inference.WaterExample | static/js/script.js:626-630 | "WATER " becomes "I need water" |
| Inference.UnknownNameExample | static/js/script.js:667 | a name such as "DIVYA" is returned unchanged |
| Inference.HelpYouMeExample | static/js/script.js:638-641 | "HELP YOU ME" becomes "I need help" |
| Inference.OkayAloneExample | static/js/script.js:617-618 | "OKAY" with no subject is returned unchanged |
| Inference.HelpAloneExample | static/js/script.js:642 | "HELP" alone becomes "Please help me" |
| Inference.ThankYouExample | static/js/script.js:613 | "THANK YOU" becomes "Thank you" |
| Translation.TranslationsNonEmpty | static/js/script.js:440-554 | every entry of both tables has a non-empty text for each of hi, te and ta |
| Translation.FindKey | static/js/script.js:572-574 | `find` returns the first key that matches, and none exactly when no key matches |
| Translation.EnglishIsIdentity | static/js/script.js:560-588 | with English selected both helpers return their input |
| Translation.TranslateSound | static/js/script.js:560-582 | see note 11 below the table |
| Translation.TranslateExact | static/js/script.js:564-569 | the exact key is tried first: a sentence equal to a key gets the first such entry's text, even when an earlier key equals it ignoring case |
| Translation.TranslateComplete | static/js/script.js:571-578 | whenever some key matches ignoring case, the result is the translation of a matching key |
| Translation.TranslateFallback | static/js/script.js:580-581 | with no key matching ignoring case, the sentence comes back unchanged |
| Translation.TranslateWordCaseless | static/js/script.js:590-597 | words equal up to case translate alike, to the entry of their upper-case form |
| Translation.TranslateWordFallback | static/js/script.js:599-600 | a word whose upper-case form has no entry comes back unchanged |
| Translation.TranslateWords | static/js/script.js:700 | the map keeps the number of words and translates each one in place |
| Translation.ThankYouInHindi | static/js/script.js:441-445 | "Thank you" in Hindi is "धन्यवाद" |
| Translation.PleaseHelpMeUntranslated | static/js/script.js:642 | "Please help me", which inference produces, has no sentence entry and is never translated |
| Translation.SpokenEnglish | static/js/script.js:709-712 | with English the spoken text is the inferred sentence |
| Translation.SpokenInferred | static/js/script.js:713-714 | when inference changed the text, the spoken text is the sentence translation of the inferred sentence |
| Translation.WordByWordTokens | static/js/script.js:715-718 | see note 12 below the table |
| Translation.OkayWordInHindi | static/js/script.js:553 | the word OKAY is "ठीक है" in Hindi |
| Translation.OkayHindiTokens | static/js/script.js:553 | "ठीक है" splits on spaces into two tokens |
| Translation.OkayInHindi | static/js/script.js:713-718 | "OKAY" is spoken in Hindi as "ठीक है": one token in, two out |
| Translation.ThankYouSpokenInHindi | static/js/script.js:709-722 | signed "THANK YOU" is spoken in Hindi as "धन्यवाद" |
| Translation.HelpSpokenInEnglish | static/js/script.js:642 | signed "HELP" is spoken as "Please help me" whatever the language |
| SignAvatar.KeysShaped | static/js/script-avatar.js:71-135 | every key of the map consists of 1 to 10 lower-case ASCII letters; "", "constructor" and "\_\_proto\_\_" are not keys |
| SignAvatar.GreetingsShareClip | static/js/script-avatar.js:73-79 | the six greetings, among them hello, hi and vanakkam, all map to the hello clip |
| SignAvatar.Normalise | static/js/script-avatar.js:172-174 | after lower-casing and dropping punctuation only lower-case word characters and whitespace remain |
| SignAvatar.KeepKnown | static/js/script-avatar.js:176 | the filter keeps exactly the words that are in the key set and never lengthens the list |
| SignAvatar.SignWordsAsWritten | static/js/script-avatar.js:172-176 | the words that survive the truthiness test are those of the map plus the inherited "constructor" and "\_\_proto\_\_" |
| SignAvatar.SignWords | static/js/script-avatar.js:172-176 | with an own-key test the words kept are exactly the fragments that are keys, and the empty fragment is never kept |
| SignAvatar.KeepKnownAppend | static/js/script-avatar.js:176 | filtering distributes over concatenation |
| SignAvatar.KeepKnownExtra | static/js/script-avatar.js:176 | keys that no word equals do not change the filter's result |
| SignAvatar.AsWrittenAgrees | static/js/script-avatar.js:176 | when no fragment is a prototype name, the truthiness test and the own-key test keep the same words |
| SignAvatar.ConstructorKept | static/js/script-avatar.js:176 | "constructor" is not a key, yet the truthiness test keeps it and the own-key test does not |
| SignAvatar.SingleFragment | static/js/script-avatar.js:172-176 | a text that splits into one fragment gives that fragment to both filters when it is a key, and nothing when it is not |
| SignAvatar.PlainWordFragments | static/js/script-avatar.js:172-175 | a lower-case word without punctuation or whitespace is its own single fragment |
| SignAvatar.HelloExample | static/js/script-avatar.js:172-176 | "Hello!" signs as the one word "hello" |
| SignAvatar.LeadingSpaceExample | static/js/script-avatar.js:175-176 | " Hi" splits into "" and "hi"; the empty fragment is dropped and "hi" is signed |
| SignAvatar.NextClip | static/js/script-avatar.js:139-145 | the next word loaded is the first mapped word at or after the index, and none when no later word is mapped |
| SignAvatar.ChainPlaysClips | static/js/script-avatar.js:138-166 | a chain plays the clip of the next mapped word, then the rest of the chain from the following position |
| SignAvatar.FilteredPlaysAll | static/js/script-avatar.js:176-179 | when every word is mapped, as after the filter, the chain plays as many clips as there are remaining words |
| SignAvatar.Player.constructor | static/js/script-avatar.js:13-15 | the player starts without an avatar and not playing |
| SignAvatar.Player.AvatarLoaded | static/js/script-avatar.js:55-67 | loading the base avatar makes the player ready and leaves the playing flag alone |
| SignAvatar.Player.PlaySentence | static/js/script-avatar.js:138-146 | see note 13 below the table |
| SignAvatar.Player.SignWord | static/js/script-avatar.js:169-180 | nothing starts while the avatar is missing, a chain is playing or no word survives the filter; otherwise a chain starts loading the clip of the first filtered word |
| SignAvatar.Player.OnClipLoaded | static/js/script-avatar.js:147-159 | a clip with an animation starts playing and sets the flag. One without leaves pending exactly what `playSentence` from the next position would: the load of the next mapped word's clip, or nothing |
| SignAvatar.Player.OnClipFinished | static/js/script-avatar.js:161-164 | when a clip ends, the chain leaves pending the load of the next mapped word's clip (same words, its position, its file), or stops and clears the flag |

Notes on the longer entries in the table:

1. `Pipeline.RunInv`: any sequence of events, in any order, keeps the invariant. So the motion clip never holds more than 30 frames. The sentence buffer is also always empty or ends with a space.
2. `Pipeline.HandCountChangeResets`: a tick that sees a new hand count records it and restarts the 300 ms window. It clears the snapshot, the dwell timer and the lock, resets the motion state and sends nothing. The still streak and the sentence state are left as they were.
3. `Pipeline.EnteringMotion`: a STATIC tick switches to MOTION exactly on the second consecutive moving settled tick. The switch clears the current word, the whole sentence buffer and the clip.
4. `Pipeline.StaticGate`: a tick sends a static request exactly when all of these hold:
   - the tick is settled;
   - the mode is STATIC and static prediction is not suppressed;
   - the magnitude is still, and this tick makes at least 3 still ticks in a row;
   - the dwell timer was already running and has run for at least 500 ms;
   - the lock is not set.

   The request carries the vector and its hand count.
5. `Pipeline.MotionSendOnce`: a tick sends the motion clip exactly when it is a settled MOTION tick with 30 unsent frames. The request carries their concatenation and marks the clip as sent.
6. `Pipeline.MotionReplyResets`: after a motion reply, with a label or without one, the state is STATIC with an empty clip, no lock, no dwell and no snapshot. A label is appended to the buffer with a space.
7. `Pipeline.StaticReplyEffect`: a label is appended to the word only if it differs from the last one. It then sets the lock and clears the dwell timer. No label changes nothing.
8. `Pipeline.HandRemoval`: a frame with no hands does three things:
   - it flushes a non-empty current word into the buffer, provided a hand was present;
   - it releases the hand and the lock;
   - it fully resets the motion state.
9. `Pipeline.PollEffect`: the handler fires exactly in STATIC mode with a non-empty, unspoken buffer whose silence has lasted more than 1500 ms. It then hands on the trimmed buffer, clears the sentence state and sets the spoken latch. Otherwise it changes nothing.
10. `Inference.WaterWithoutSubject`: WATER with neither I, ME nor YOU, and no earlier trigger, becomes "I need water", the same as with I.
11. `Translation.TranslateSound`: a sentence translation is either the input itself or the selected language's text of an entry whose key equals the input ignoring case.
12. `Translation.WordByWordTokens`: take an untouched sentence whose words translate to texts without spaces. Its spoken form has one token per word, each word translated.
13. `SignAvatar.Player.PlaySentence`: the chain stops exactly when no later word is mapped, and then clears the flag. Otherwise it loads the first mapped word's clip.
14. `JsText.SplitWsWeave`: take whitespace-free pieces, of which only the first and the last may be empty. Put a non-empty whitespace run of any length between each two. `split(/\s+/)` of the result gives back exactly the pieces. So the split cuts at the maximal whitespace runs and nowhere else. A leading or trailing run gives an empty first or last piece.
15. `Pipeline.OneMotionRequestPerClip`: take any interleaving of camera frames, ticks, replies, unlocks and polls. Suppose no event in it is hand removal, a tick that sees a new hand count, or the motion reply; these are the places that unmark a sent clip (`static/js/script.js:171`, `225`, `302`). Then the run sends at most one motion clip.
16. `Pipeline.OneSentencePerWords`: take any interleaving of events in which no word enters the buffer, that is, no hand removal with an unfinished word (`static/js/script.js:152-156`) and no labelled motion reply (`static/js/script.js:420-422`). Then it hands on at most one sentence to be spoken.

## Left out

- The camera, MediaPipe set-up and landmark drawing (`static/js/script.js:76-147`) are left out. `onResults` is modelled from the landmark list it receives.
- Network calls are not modelled as such. The two `fetch("/predict")` calls are requests returned by the tick, and their outcomes are reply events. `Reply` covers a label, no label and a failure. The classifier behind them (`app.py`, the training scripts) is not part of this model, and neither is the JSON decoding: the prediction is taken to be a string.
- Clocks are parameters. `Date.now()` is the `now` of each event, and the three timers (200 ms, 300 ms, 400 ms) are events that may arrive in any order.
- The 150 ms display swap is the pure `Translation.Spoken`, applied to the sentence `Poll` hands on with the language of that moment.
- `speakPrediction` and voice selection (`static/js/script.js:737` onwards) are left out, because speech synthesis is I/O.
- `finalOutput` (`static/js/script.js:684-703`) is computed but never used, so it is not modelled.
- Display updates are not modelled: `predictionText`, `motionCounter`, and `motionFrameCount`, which only mirrors the clip length.
- `isCollecting` and `suppressPredictionUI` are never set to true in the core, so their early return is not modelled. Static and motion CSV collection and export are not modelled either.
- Coordinates are reals. IEEE rounding is not modelled; the two special values Infinity and NaN are.
- `toUpperCase`/`toLowerCase` are ASCII only. Non-ASCII text passes through them unchanged. Unicode case mapping and the Unicode meaning of `\w`/`\s` beyond ASCII `\w` and the JavaScript whitespace set are not modelled.
- `selectedLanguage` is one of the four codes the tables use (`en`, `hi`, `te`, `ta`). A code outside them is not modelled.
- The Three.js scene, renderer, resize handler and animation mixer (`static/js/script-avatar.js:18-52`, `static/js/script-avatar.js:153-159`, `static/js/script-avatar.js:183-196`) are left out. A loaded clip is represented only by whether it has an animation. Its duration is the delay of the `OnClipFinished` event.
- `SignAvatar.Player.SignWord`, `SignAvatar.Player.PlaySentence`: these filter and look words up in `SIGN_MAP`'s own keys, the corrected behaviour. The truthiness test as written is `SignAvatar.SignWordsAsWritten` (see Findings).
- Several chains can run at once, since `isPlaying` becomes true only once a clip has loaded. They are modelled as independent events on one `Player`, not as an interleaving proof.
- `Recognizer.Session`: the class carries no validity predicate of its own. Its methods are tied step by step to the Pipeline functions, and the invariant is proved about those (`Pipeline.RunInv`).

## Findings

| source | as written | input that shows it | evidently intended | confidence | as-written member | corrected member |
|---|---|---|---|---|---|---|
| static/js/script-avatar.js:176 | `filter(w => SIGN_MAP[w])` also keeps words that name an inherited property of a plain object | speaking "constructor" keeps the word "constructor", and `playSentence` then asks the loader to load a function instead of a clip URL | keep only the words that are keys of `SIGN_MAP` | not executed | SignAvatar.SignWordsAsWritten | SignAvatar.SignWords |

`SignAvatar.ConstructorKept` exhibits the input. `SignAvatar.AsWrittenAgrees` shows the two filters agree on every other input, and `SignAvatar.KeysShaped` shows that no key is a prototype name. The `Player` uses the corrected filter.

Some of the code's behaviour differs from what its rules suggest. The model follows the code and states each difference as a lemma:

- "ME" makes the first-person test true. So "HELP YOU ME" gives "I need help", and the branch for "Do you want me to help?" (`static/js/script.js:640`) can never be taken (`Inference.HelpMeBranchUnreachable`).
- "NAME" contains "ME". So "What is your name?" (`static/js/script.js:623`) is never produced (`Inference.NameQuestionUnreachable`).
- Subjects and keywords are found as substrings, not words (`Inference.LetterIInsideWordRule`, `Inference.GoInsideWordRule`).
- The word-by-word fallback does not keep the number of words when a translation holds a space (`Translation.OkayInHindi`).
- "Please help me", which inference produces, is never translated (`Translation.PleaseHelpMeUntranslated`).
- The STATIC-mode test at `static/js/script.js:353` cannot succeed. The `suppressStatic` test at line 354 cannot succeed in any reachable state either, because the invariant ties `suppressStatic` to MOTION mode.
- The Tamil entry for STOP (`static/js/script.js:538`) mixes Tamil and Telugu letters. It is kept as written.

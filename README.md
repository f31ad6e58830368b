# Calm typing practice: the typing session, in Dafny

This project models the typing-session logic of the `CalmTypingTest` class
in `script.js`: a browser widget that shows a loaded text, compares each
typed character with the one under the cursor, and reports words per minute,
accuracy and elapsed seconds. It also models the sanitiser `cleanText` that
every loaded text passes through, and the split of the text that the
display renders.

- `wrappers.dfy`: `Option`, standing for JavaScript's `null`.
- `js_text.dfy`: `substring` and `s[i] || ''`, including how they behave out of range.
- `sanitizer.dfy`: `cleanText`, step by step. This covers whitespace collapsing, the character filter, `trim`, and the 1500-character cut.
- `stats.dfy`: elapsed seconds, words per minute, accuracy, and `updateStats`. These are exact integer formulas.
- `display.dfy`: the typed / current / remaining split of `updateDisplay`.
- `session_model.dfy`: the session fields as a value, and one function per handler. It also holds the invariant, a `Run` over a sequence of keystrokes and backspaces, and the lemmas about them.
- `calm_typing_test.dfy`: the class itself. Its fields are updated in place by `SetText`, `HandleInput`, `HandleBackspace`, `StartTest`, `FinishTest`, `RestartTest` and the timer tick. Each method is proved to produce the state that the matching `SessionModel` function gives.

The session invariant is `SessionModel.Valid`. It says three things:
- the cursor stays within the text;
- the history has exactly `currentIndex + errors` entries;
- every entry's `correct` flag says whether the typed string equals the expected character.

`Date.now()` becomes the parameter `now`.

Behaviours of `script.js` a reader may not expect:
- The history length is `currentIndex + errors`, not `currentIndex`. A wrong keystroke is recorded too (script.js:194-205).
- A backspace at the end of the text moves the cursor back off the end. So "finished" can revert until `finishTest` disables the input (script.js:161-168).
- `finishTest` runs only on the input event after the cursor reached the end (script.js:186-189).
- `updateStats` also skips a start time of `0`, because `!this.startTime` is true for 0 (script.js:228).

## Model

| member | source | states |
|---|---|---|
| CalmTyping.CalmTypingTest.constructor | script.js:2-10 | A new object satisfies the invariant and holds exactly the `SessionModel.Initial` state. |
| CalmTyping.CalmTypingTest.SetText | script.js:114-120 | The object holds the `SessionModel.SetText` state: a fresh session over the new text, with the start time kept. |
| CalmTyping.CalmTypingTest.RestartTest | script.js:267-268 | Restarting is `setText` on the current text. |
| CalmTyping.CalmTypingTest.StartTest | script.js:212-214 | The object runs, with start time `now`. Nothing else changes, so the invariant is kept. |
| CalmTyping.CalmTypingTest.FinishTest | script.js:254-255 | The object stops running. Nothing else changes, so the invariant is kept. |
| CalmTyping.CalmTypingTest.HandleBackspace | script.js:161-168 | The in-place update equals `SessionModel.Backspace` and keeps the invariant. |
| CalmTyping.CalmTypingTest.HandleInput | script.js:176-205 | The in-place update, including the early returns, equals `SessionModel.Keystroke` and keeps the invariant. |
| CalmTyping.CalmTypingTest.TimerTick | script.js:220-221 | `timeLeft` becomes the whole seconds since the start. Nothing else changes, so the invariant is kept. |
| CalmTyping.CalmTypingTest.CurrentStats | script.js:227-237 | Nothing is shown while the start time is null or 0. Otherwise the speed is `Stats.WordsPerMinute` of the correct characters over the elapsed milliseconds, and the accuracy is `Stats.Accuracy` of the correct characters and errors. Accuracy lies in [0,100] and speed is non-negative. |
| CalmTyping.CalmTypingTest.CurrentDisplay | script.js:133-136 | The displayed parts reassemble the text. The typed part is the text before the cursor. Inside the text, the current part is the one character under the cursor and the remaining part is everything after it. At the end both are empty. |
| SessionModel.Initial | script.js:2-10 | The constructor's state satisfies the invariant. It has no text, cursor 0, no errors, no history, no start time, `timeLeft` 0, and is not running. |
| SessionModel.SetText | script.js:114-120 | Cursor 0, errors 0, timeLeft 0, empty history and not running, on the new text. The start time is unchanged and the invariant holds. |
| SessionModel.Start | script.js:212-214 | Running from `now`. All other fields are unchanged. |
| SessionModel.Finish | script.js:254-255 | Not running. All other fields are unchanged. |
| SessionModel.Record | script.js:191-199 | The recorded entry holds the character under the cursor, the typed string and the time `now`. It is marked correct exactly when the two are equal. |
| SessionModel.Keystroke | script.js:176-205 | Any input starts a stopped session, even null data. Null data changes nothing else. At the end of the text, input records nothing and stops the session. Before the end, input appends exactly one entry. A match advances the cursor with errors unchanged; anything else, multi-character input included, adds one error with the cursor unchanged. Errors never decrease and the invariant is preserved. |
| SessionModel.Backspace | script.js:161-168 | At cursor 0 nothing changes. Otherwise the cursor drops by one and the last history entry is removed. Errors never change and the invariant is preserved. |
| SessionModel.Tick | script.js:219-221 | `timeLeft` is `floor((now - startTime) / 1000)`. All other fields are unchanged. |
| SessionModel.RunKeepsInvariant | script.js:161-205 | Over any sequence of keystrokes and backspaces the invariant holds, the text is unchanged, and errors never decrease. |
| SessionModel.KeystrokesNeverRewind | script.js:186-205 | Keystrokes alone never move the cursor back. |
| SessionModel.FinishedStaysFinished | script.js:186-189 | Once the cursor is at the end, keystrokes keep it there. They record nothing and add no error. |
| SessionModel.BackspaceThenRetype | script.js:161-205 | Backspace and then retyping the character stepped over restores the cursor, the error count and the history length. |
| SessionModel.BackspaceLeavesEnd | script.js:161-168 | A backspace at the end of a non-empty text leaves the finished position. |
| SessionModel.CatScenario | script.js:176-237 | Typing `c`,`x`,`a`,`t` on "cat" gives cursor 3, 1 error, 4 entries and 50% accuracy, still running. The next input stops the session and records nothing. |
| Stats.RoundDiv | script.js:232-236 | `Math.round(p/q)`: the integer `r` with `r - 1/2 <= p/q < r + 1/2`. |
| Stats.ElapsedSeconds | script.js:221 | The whole seconds `s` with `1000*s <= now - start < 1000*(s+1)`. It is non-negative when `now >= start`. |
| Stats.WordsPerMinute | script.js:230-232 | 0 when no time has passed. Otherwise the rounding of `(typed/5)/(ms/60000)`. 0 when nothing is typed. |
| Stats.WordsPerMinuteMonotone | script.js:230-232 | More characters in the same time never lower the speed. |
| Stats.WordsPerMinuteAntitone | script.js:230-232 | The same characters over a longer time never raise the speed. |
| Stats.Accuracy | script.js:234-237 | Always in [0,100]. It is 100 exactly when `399*errors <= typed`, which includes no keystrokes at all. It is 0 exactly when `200*(typed-errors) < typed+errors`. Otherwise it is the rounding of `100*(typed-errors)/(typed+errors)`. |
| Stats.UpdateStats | script.js:227-237 | No stats while the start time is null or 0. Otherwise speed and accuracy for the elapsed time, within their bounds. |
| Stats.WordsPerMinuteExample | script.js:230-232 | 50 characters in 60000 ms give 10 words per minute. |
| Stats.AccuracyExample | script.js:234-237 | 3 correct and 1 error give 50%. No keystrokes give 100%. |
| Display.Split | script.js:134-136 | For every cursor value the three parts concatenate back to the text. Inside the text they are the prefix, the character at the cursor and the rest. At or past the end they are the text, empty and empty. |
| Sanitizer.CollapseWhitespace | script.js:108 | The output is never longer than the input, is empty only for empty input, and starts with the input's first character (a space for whitespace). |
| Sanitizer.CollapseAppend | script.js:108 | Cut after a non-whitespace character, the text collapses piece by piece: no whitespace run straddles the cut. |
| Sanitizer.CollapseSpaceRun | script.js:108 | A non-empty whitespace run before non-whitespace becomes exactly one space. |
| Sanitizer.CollapseBetween | script.js:108 | A whitespace run between two pieces of text survives as exactly one space, and each piece is collapsed on its own. |
| Sanitizer.CollapseShape | script.js:108 | After the whitespace step, the only whitespace is a plain space, and never two side by side. |
| Sanitizer.CollapseKeepsNonSpace | script.js:108 | The whitespace step keeps every other character, in order. |
| Sanitizer.CollapseFixpoint | script.js:108 | Text with only single plain spaces passes the whitespace step unchanged. |
| Sanitizer.RemoveDisallowed | script.js:109 | Every remaining character is a word character, whitespace or `.,!?;:()'-`. |
| Sanitizer.RemoveOne | script.js:109 | On one character, the filter keeps it exactly when it is allowed. |
| Sanitizer.RemoveAppend | script.js:109 | The filter works character by character: filtering a concatenation concatenates the filtered pieces. |
| Sanitizer.RemoveKeepsPlainSpaces | script.js:109 | The filter only deletes: if the only whitespace in the input is the plain space, the same holds for the output. |
| Sanitizer.RemoveFixpoint | script.js:109 | Text of allowed characters passes the filter unchanged. |
| Sanitizer.TrimStart | script.js:110 | The result is a suffix of the input. Only whitespace was dropped, and it does not start with whitespace. |
| Sanitizer.TrimEnd | script.js:110 | The result is a prefix of the input. Only whitespace was dropped, and it does not end with whitespace. |
| Sanitizer.Trim | script.js:110 | The result is the input with only its leading and trailing whitespace removed: what is dropped at either end is whitespace, and the result neither starts nor ends with whitespace. |
| Sanitizer.CleanText | script.js:106-112 | The result is the trimmed, filtered, collapsed text, cut to its first 1500 characters when longer. So it has at most 1500 characters, only `[A-Za-z0-9_ .,!?;:()'-]` with the space as the only whitespace, and never starts with a space. |
| Sanitizer.CleanTextFixpoint | script.js:106-112 | A text that is already clean is returned unchanged. |
| Sanitizer.CleanTextMayKeepDoubleSpace | script.js:106-112 | A removed character between two spaces leaves a double space, and cleaning again removes it. So `cleanText` is not idempotent. |

## Left out

- DOM work is not modelled because it is presentation: element lookup, class toggling, `innerHTML`, `highlightText`, `scrollIntoView`, focus, blur, `alert`, and the `wpm`/`accuracy`/`timer` text (script.js:12-48, 122-126, 138-149, 243-264).
- `typingInput.disabled` is not modelled. After `finishTest` the browser delivers no more input or keydown events until a restart, and the model does not track that flag.
- `handleKeydown` is not modelled: it only dispatches Backspace to `handleBackspace` and turns Escape into a blur (script.js:151-159).
- `newText` is not modelled: it resets display elements and clears the interval, and changes no session field (script.js:273-287).
- File loading is not modelled because it is I/O and foreign-library code: `loadFile`, `FileReader`, `pdfjsLib` text extraction, promises (script.js:50-104). Only `cleanText`, applied to the loaded string, is modelled.
- `setInterval`, `clearInterval` and `setTimeout` scheduling are not modelled. This includes `startTimer` starting a new interval without clearing the previous one. Time is the explicit `now` argument, and a timer tick is the `TimerTick` method.
- `Run` covers keystrokes and backspaces only. Ticks change nothing but `timeLeft`.
- Stats.WordsPerMinute: exact rational rounding, not the IEEE-754 double chain of `/` and `Math.round`. The two could differ at an exact `.5` boundary.
- Stats.Accuracy: exact rational rounding, not IEEE-754 doubles, for the same reason.
- Text is a sequence of Unicode characters, not of UTF-16 code units. A character outside the Basic Multilingual Plane is one `char` here but two positions in JavaScript.

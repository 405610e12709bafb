# monkeytype (terminal typing test) — Dafny model of the core

The program is a terminal typing test written in Go. A **menu** lets the user pick a test kind: word, time or quote. Each kind has its own **prompt**:

- The word and time prompts have a check list ("punctuation", "numbers") and a list of presets (10/25/50/100 words, or 15/30/60/120 seconds).
- The quote prompt has a list of quote lengths (short, medium, long).

Pressing `s` starts a **test**. The test generates its target text from one of two sources:

- For word and time tests, a shuffled word corpus cut to the chosen count and joined by spaces.
- For quote tests, one non-empty line of a quote file.

The user then types against the target. Every key press edits a typed buffer, and the test finishes when one of these holds:

- the buffer equals the text;
- as many spaces were typed as the text has space-separated pieces;
- a time test ran past its duration.

A small utility module word-wraps text into lines.

## Modules

- **Base** (`base.dfy`) holds shared vocabulary:
  - `Option` and `Result`;
  - the faults that make the Go program panic;
  - the key events the screens distinguish.
- **GoStrings** (`gostrings.dfy`) models the pieces of Go's library the core relies on: `unicode.IsSpace`, `strings.Fields`, `strings.Split` with a one-character separator, `strings.Join` and `strconv.Atoi` (errors discarded). It also proves the round trips between them. `Count`, the number of occurrences of a character, is not a library call of the source: it is the reference count of typed spaces that the test's word counter is proved against.
- **Utils** (`utils.dfy`) models utils.go:
  - `Contains` is a loop with an early return.
  - `SplitTextIntoLines` is the imperative greedy wrap. It is proved equal, line for line, to the function `Wrap`, and `Wrap` is proved to be a greedy wrap (`WrapIsGreedy`).
- **TypingTest** (`test.dfy`) models test.go:
  - The class `Test` has the source's fields. Its methods `Update`, `Finish` and `GenerateText` are each tied to a pure function (`Press`, `Verdict`, `WordsText`/`QuoteText`), and lemmas about those functions carry the properties.
  - `ShuffleInPlace` is `rand.Shuffle`'s Fisher–Yates loop over an array.
  - `GenerateQuote` has the source's filtering loop.
- **Selection** (`menu.dfy`) models menu.go:
  - `ListPrompt` is one class standing for both `WordPrompt` and `TimePrompt`. Their key handling differs only in the value table. Their `Config` also fills a different field: `Words` for the word prompt (menu.go:272-277) and `Duration` for the time prompt (menu.go:403-408). `ListConfig` chooses the field by the prompt's `forTime` flag.
  - `QuotePrompt` and `Menu` are classes too. Each `Update` is tied to a pure step function (`ListStep`, `QuoteStep`, `MenuStep`) that the lemmas describe.
  - The `Menu` holds the three prompt objects, which play the role of the global `TestTypes` table. Because the prompts are shared, their state outlives any one menu.
- **Scenarios** (`scenarios.dfy`) contains client methods that drive the classes through their contracts only:
  - typing "cat dog";
  - the cursor quirk described below leading to a panic.

Modelling choices:

- **The clock** is an integer number of nanoseconds since Go's zero `time.Time`. `startTime == 0` is the zero time, which the source uses as "not started". Each `Update` takes the current time `now` as a parameter.
- **Files** are a `map` from path to content. A path that is missing means `os.Open` failed.
  - The word corpus then panics.
  - A quote file then reads as empty, because the source ignores those errors.
- **Randomness is an input:**
  - `draw(i)` is the number `rand.Shuffle` uses at position `i`, reduced to `[0, i]`.
  - `pick` is the number `rand.Intn(n)` returns, reduced modulo `n`.
- **Panics** become `Failure(fault)`:
  - a slice or index out of range;
  - `panic(err)` on the corpus;
  - `rand.Intn(0)`.
- **Characters:** every string is a sequence of characters, one per byte of the Go string, so the model agrees with Go on ASCII text (see "## Left out").

### Behaviour of the code as written

- The Down key on a prompt's value list compares the *committed* index (`wordCount` / `duration`), not the cursor, against the end of the table (menu.go:226, menu.go:357).
  - While the committed index is below 3, the cursor keeps growing.
  - Enter commits the cursor, so the committed index can leave the table. `Config` then indexes out of range and pressing `s` panics.
  - `CursorEscapesTable` and `Scenarios.CursorQuirk` exhibit this. The model keeps the code as it is. `ListInvariant` shows what *is* kept: the indices are never negative.
- A time test compares against Go's zero time until its first rune key. So a non-rune first key ends it at once (`UnstartedTimeTestIsOver`).
- `words` counts the pieces between spaces, and `typedWords` counts spaces typed. So the word limit is reached after one space more than the text holds (`WordLimitIsOneSpaceMore`).

### Behaviour one might expect otherwise (the model follows the code)

- **Default word count:** a word *or time* test with word count 0 gets 100 words. The count is not derived from a time test's duration.
- **Punctuation and numbers:** the flags are read into `Config` but do not change the generated words.
- **Space key:** appends a space and counts a word, with no padding of an unfinished word.
- **Quotes:** not trimmed.
- **Start time:** set by the first *rune* key only, not by other non-backspace keys.
- **Time limit:** the check is strict (`now` after the start plus the duration).
- **Empty quote bucket:** panics (`rand.Intn(0)`) instead of returning to the menu.

## Model

| member | source | states |
|---|---|---|
| GoStrings.IsSpace | utils.go:56 | `unicode.IsSpace`: the Latin-1 and Unicode white-space code points; a predicate with no `ensures`, used by `Fields` |
| GoStrings.Join | test.go:245 | `strings.Join`: the pieces with the separator between each two; no `ensures`, its properties are `JoinEdges`, `FieldsOfJoin`, `SplitOfJoin` and `JoinOfSplit` |
| GoStrings.Fields | utils.go:56 | every field of `strings.FieldsFunc(text, unicode.IsSpace)` is a non-empty run without white space |
| GoStrings.FieldsOfJoin | test.go:239-245 | splitting into fields a single-space join of words gives back exactly those words |
| GoStrings.Split | test.go:207 | `strings.Split` with a one-character separator gives at least one piece, and no piece contains the separator |
| GoStrings.SplitOfJoin | test.go:245 | splitting a join on its separator gives the pieces back when no piece contains the separator |
| GoStrings.JoinOfSplit | test.go:220 | joining the pieces of a split with the separator restores the string |
| GoStrings.SplitOfJoinedWords | test.go:207 | a space-join of words splits on spaces into the same words |
| GoStrings.SplitCount | test.go:207 | a split has exactly one piece more than there are separators |
| GoStrings.Count | test.go:142-157 | not a library call: the reference count of spaces in the typed buffer that `typedWords` is proved equal to (`PressKeepsCount`); its contract bounds it by the string's length |
| GoStrings.Atoi | menu.go:272 | a string of decimal digits reads as its decimal value; any other unsigned string reads as 0 (error discarded) |
| GoStrings.JoinEdges | utils.go:70-75 | a join of words is non-empty and neither starts nor ends with white space |
| Utils.Contains | utils.go:130-138 | true exactly when some element equals the target |
| Utils.SplitTextIntoLines | utils.go:54-83 | the lines are the greedy wrap of the input's words; no line is empty; no words gives no lines; the words of the lines, in order, are the input's words; `currentLength` tracks `len(currentLine)` |
| Utils.WrapIsGreedy | utils.go:64-68 | the wrap regroups the words in order; every word after the first on a line passed the length test (the line so far, without the space before the word, plus the word fits in `maxLength`), while a line's first word is not tested; and every break was forced by the length test |
| Utils.WrappedLines | utils.go:61-81 | no line is empty, no words gives no lines, each line has non-space edges and gives back its words, and a line of two or more words has length at most `maxLength + 1` |
| Utils.LongWordAlone | utils.go:64-68 | a word longer than `maxLength` is never on a line with other words |
| Utils.MultiWordLineLength | utils.go:64-73 | the separator is not counted in the length test, so a multi-word line exceeds `maxLength` by at most one |
| Utils.MultiWordLineOverrun | utils.go:64-73 | the bound is reached: "ab" and "cd" wrapped at width 4 share the line "ab cd" of length 5 |
| TypingTest.PressRune | test.go:141-150 | a rune appends exactly its character; the word counter grows by one exactly when the rune is a space |
| TypingTest.PressBackspace | test.go:152-160 | backspace on an empty buffer changes nothing; otherwise it drops the last character and uncounts a word exactly when that character was a space; the start time is untouched |
| TypingTest.PressStartTime | test.go:145-148 | the start time changes only from unset, only on a rune, and then to the current time |
| TypingTest.PressKeepsCount | test.go:141-160 | every key keeps the word counter equal to the number of spaces typed |
| TypingTest.FreshRunCounted | test.go:141-160 | over any key sequence from a fresh test the counter equals the number of spaces typed and lies between 0 and the buffer length |
| TypingTest.ReplayStartTime | test.go:145-148 | over any key sequence the start time is the time of the first rune, unless it was already set |
| TypingTest.MatchesCountPositions | test.go:177-185 | the correct-character count is the size of the set of agreeing positions |
| TypingTest.MatchesAllIffPrefix | test.go:177-185 | all positions below `n` agree exactly when the two prefixes of length `n` are equal |
| TypingTest.CorrectBound | test.go:177-185 | the correct count is at most the length of the typed buffer and at most the length of the text |
| TypingTest.CorrectOfPrefix | test.go:177-185 | when no more is typed than the text holds, every typed character is correct exactly when the buffer is a prefix of the text |
| TypingTest.CorrectOfCatDog | test.go:177-185 | typing "cat dog" for the text "cat dog" gets 7 correct characters |
| TypingTest.Elapsed | test.go:173 | `time.Since` is `now - start` within the range of `time.Duration` and saturates to its maximum above it and to its minimum below it |
| TypingTest.Verdict | test.go:169-195 | the step function of `finish`: a metric exactly when `Done` holds; no `ensures`, its properties are `VerdictMetric`, `ExactTextFinishes`, `WordLimitIsOneSpaceMore` and `UnstartedTimeTestIsOver`, and `Test.Finish` is proved equal to it |
| TypingTest.VerdictMetric | test.go:173-191 | a metric counts every typed character, at most that many correct, and for a time test exactly the configured seconds |
| TypingTest.ExactTextFinishes | test.go:171 | typing the text exactly finishes the test with every character correct |
| TypingTest.WordLimitIsOneSpaceMore | test.go:171 | the word limit is reached exactly when one space more than the text holds has been typed |
| TypingTest.UnstartedTimeTestIsOver | test.go:172 | a time test without a start time is over once `now` is past the duration itself |
| TypingTest.Shuffled | test.go:240-242 | `rand.Shuffle` as Fisher–Yates from the last position down, swapping position `i` with `draw(i) % (i + 1)`; no `ensures`, its properties are `ShuffledPermutes` and `ShuffleInPlace` |
| TypingTest.ShuffledPermutes | test.go:240-242 | the shuffle is a permutation of the corpus |
| TypingTest.ShuffleInPlace | test.go:240-242 | the in-place swap loop leaves the array equal to the shuffle of its old contents |
| TypingTest.GenerateWords | test.go:232-248 | a missing corpus file panics; otherwise the result is the shuffled corpus cut to the word count, or a panic when the count is outside the corpus |
| TypingTest.GeneratedWords | test.go:239-245 | generation succeeds exactly when the count is between 0 and the corpus size; for a count of at least one the text then splits on spaces into exactly that many pieces, which are its fields and a sub-multiset of the corpus; a count of zero gives the empty text, which splits into one empty piece |
| TypingTest.NonEmptyMembers | test.go:221-226 | the kept quotes are exactly the non-empty lines |
| TypingTest.NonEmptyAppend | test.go:221-226 | filtering distributes over concatenation, so the kept lines stay in file order |
| TypingTest.GenerateQuote | test.go:210-230 | the filtering loop keeps the non-empty lines in order and returns the picked one; a category outside the table or a file without a non-empty line panics |
| TypingTest.QuoteIsALine | test.go:220-229 | a generated quote is a whole, non-empty, untrimmed line of its category's file |
| TypingTest.Test.constructor | test.go:45-51 | a new test has its kind and configuration, nothing typed or generated, and no start time |
| TypingTest.Test.GenerateText | test.go:197-208 | a quote for quote tests, otherwise words with the count defaulted from 0 to 100; `words` is the number of space-separated pieces, which equals the word count for word and time tests; a panic leaves the text unset |
| TypingTest.Test.Update | test.go:139-167 | the key edits the typed state as `Press` says, nothing else changes, the word counter stays the number of spaces, and the result is the finish verdict |
| TypingTest.Test.Finish | test.go:169-195 | a metric exactly when the text is typed, the word limit is reached, or a time test is past its end; the counting loop yields the correct characters |
| Selection.ToggledMembers | menu.go:250-262 | Enter on the check list flips the membership of the selected item and of no other |
| Selection.ToggledNoDuplicates | menu.go:250-262 | toggling keeps the included list free of duplicates |
| Selection.WithoutMembers | menu.go:255-261 | the rebuilt list holds every old item except the removed one |
| Selection.ListLeftOnlyUpwards | menu.go:232-268 | a prompt is left exactly on Up at the top of the focused list, which only clears `inPrompt`; every other path returns false |
| Selection.CheckListDownWraps | menu.go:219-224 | Down on the focused check list moves to the next item, wrapping at the end |
| Selection.ListLeftRightSwitch | menu.go:248-249 | Left and Right only switch the focused list |
| Selection.CheckListEnterToggles | menu.go:250-262 | Enter on the check list toggles the selected item, keeps the list duplicate-free and changes nothing else |
| Selection.InitialListInvariant | menu.go:17-21 | the initial prompt state satisfies the invariant that every step keeps |
| Selection.ListStepKeepsInvariant | menu.go:209-269 | every key keeps the check-list cursor on an item, the included items valid and distinct, and the indices non-negative; the value cursor is not bounded above |
| Selection.ListConfig | menu.go:271-278 | `Punctuation` and `Number` hold exactly when those items are included; the word count or duration is the committed preset's number; a committed index outside the table panics |
| Selection.ChoiceValues | menu.go:33-34 | the preset strings read as 10, 25, 50, 100 and 15, 30, 60, 120 |
| Selection.ListPrompt.constructor | menu.go:17-21 | both prompts start with the third preset committed and the check list focused, inside the invariant `ListStepKeepsInvariant` preserves |
| Selection.ListPrompt.Update | menu.go:209-269 | the word and time prompt's key handling, including the rebuild loop, is the step function `ListStep` |
| Selection.QuoteStepProperties | menu.go:421-438 | the category stays within the quote types; the prompt is left exactly on Up at the first category, clearing `InPrompt`; Down advances only inside the prompt and otherwise enters it |
| Selection.QuoteConfig | menu.go:454-458 | the quote length is the selected category |
| Selection.QuoteConfigNamesCategory | test.go:217 | a category kept by the quote prompt always names a quote file |
| Selection.QuotePrompt.constructor | menu.go:20 | the quote prompt starts at the first category, outside the prompt |
| Selection.QuotePrompt.Update | menu.go:421-438 | the quote prompt's key handling is `QuoteStep` |
| Selection.PrevKind | menu.go:80-85 | Left moves to the previous test kind, wrapping round the three |
| Selection.NextKind | menu.go:86-91 | Right moves to the next test kind, wrapping round the three |
| Selection.MenuStartsTest | menu.go:69-72 | `s` starts a test of the current kind with that prompt's configuration, in or out of a prompt, and changes nothing |
| Selection.MenuKeepsKind | menu.go:74-97 | every key keeps the test kind one of the three |
| Selection.MenuLeftRightCycle | menu.go:79-91 | outside a prompt, Left and Right cycle the kind and change nothing else |
| Selection.MenuPromptHandling | menu.go:74-95 | Down outside a prompt enters it and forwards the key; inside, every key goes to the prompt and the menu leaves it exactly when the prompt returns true; other keys outside a prompt do nothing |
| Selection.ToggleScenario | menu.go:250-278 | toggling punctuation, numbers, punctuation gives a configuration with numbers only |
| Selection.CursorEscapesTable | menu.go:225-231 | Down, Right, Down four times and Enter commit index 4, and `Config` then panics |
| Selection.Menu.constructor | menu.go:47-54 | a new menu starts on the word kind, outside any prompt, over the shared prompts |
| Selection.Menu.ForwardKey | menu.go:75-94 | `TestTypes[m.testType].Update(k)`, called inside a prompt (line 75) and on Down outside it (line 94): only the current kind's prompt changes, as that prompt's step function says, and its result is returned |
| Selection.Menu.Update | menu.go:67-99 | the menu's key handling, forwarding to the current prompt, is `MenuStep` |

## Left out

- Drawing is left out, because it is terminal cell placement only. That covers `Menu.Draw`, `drawChoiceBox`, the prompts' `Draw` and `Name`, `Test.Draw`, `drawCounter` and the drawing helpers of utils.go.
- The result screen is left out (`calcWpm`, `calcAccuracy`, `Result.Update`). It uses float arithmetic, and its exit ends the process.
- The main event loop is left out: screen set-up, `PollEvent`, the quit key and resize events.
- The once-per-second ticker goroutine of `Test.Init` is left out. It exists for concurrency only, and the event it posts is never handed to `Update`. Time is re-checked on key presses through the `now` parameter.
- File reading, `rand.Shuffle`'s generator and `rand.Intn` are inputs: the `files` map, the `draw` function and `pick`. That the draws are uniform is not modelled.
- `Test.Update` also panics on an event that is not a key. That cannot happen, because only key events are forwarded, so the model takes a `Key`.
- Multi-byte text is left out: all text (the corpus, the quotes, the typed buffer) is treated as one character per byte. Go's `len`, its indexing and the wrap's `currentLength` count bytes, so the model matches Go only on ASCII text. For example, Go wraps two "é" at width 3 onto two lines (2 + 2 > 3), while `Wrap` keeps them on one, and Go counts one correct byte for "é" against "è" where `CorrectChars` counts none. A typed rune is appended as several bytes while backspace drops one. `IsSpace` alone still recognises the non-ASCII white space of `unicode.IsSpace`.
- `Atoi`'s 64-bit range check is left out. The only strings parsed are the presets.
- `Menu`'s `config` field is left out, because it is never read.
- `TestTypes[m.testType]` with an out-of-range index cannot occur, because the kind stays in range (`MenuKeepsKind`). It is therefore not a fault.
- TypingTest.Test.Finish: reads the clock once, while the source reads it twice (once for the test, once for `time.Since`).
- TypingTest.Done: does not model 64-bit overflow of `duration * time.Second`. The durations are at most 120 seconds.

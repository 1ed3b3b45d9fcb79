# Region Reveal: a Dafny model of the game session and its oracle service

Region Reveal is a browser guessing game. The player is shown three regions
of one country and has to name the country. A generative-AI backend (the
"oracle", Services/geminiService.ts and its JavaScript build
Services/geminiService.js) supplies the challenge, judges each guess and
writes the congratulation. When no API key is configured, or the backend's
reply is unusable, it falls back to fixed data and string comparisons. The
React component App.tsx holds the session state and moves it through
loading, guessing and winning.

This project models:

- the session (module `App`, file `app.dfy`): a class `GameSession` holding
  the three React state hooks, the `gameState` record (`App.GameState`,
  the `GameState` interface of types.ts) and the two key flags. Each
  `async` handler is split at its `await`s into a method that runs up to the
  call into the service and a method that resumes with the service's result.
  `InitializeGame` and `SubmitGuess` compose the phases with the service
  functions in between. The view guards `isDisabled` and `isVisible` are the
  predicates `App.InputDisabled` and `App.RestartVisible`. `App.Valid` is an
  invariant every handler keeps: a known status line, and a correct guess
  only in a finished, settled game.
- the deterministic part of the TypeScript service (module `GeminiService`,
  file `gemini_service.dfy`): the code-fence stripper of `generateJson`, the
  default challenge and the shape check of `getRegionChallengeDetails`, the
  two fallbacks and the pass-through of `evaluateCountryGuess`, and the
  template and its fallback in `getWinMessage`.
- the JavaScript build of the service (module `GeminiServiceJs`, file
  `gemini_service_js.dfy`), modelled from that file and proved equal to the
  TypeScript model on every input. The fence pattern at
  Services/geminiService.js:44 is the same text as at
  Services/geminiService.ts:48, so the JavaScript model shares the pattern's
  model (`GeminiService.IsFenced`, `GeminiService.FenceContent`); the guards,
  defaults, fallbacks and templates are written out again from the
  JavaScript file.
- the JavaScript primitives these rely on (module `Text`, file `text.dfy`):
  `trim` and the `\s` class over the whitespace set of ECMAScript, the `\w`
  class, `toLowerCase` on ASCII letters, and the decimal rendering of a
  count in a template literal. Parsed JSON is the datatype `Json.Value`
  (file `json.dfy`), read only through JavaScript truthiness, property reads
  and `typeof`/`Array.isArray` tests.

Whether an API key is configured is a boolean parameter. What the backend
returned is a parameter as well: an `Option` of a parsed value (for
`generateJson`) or of a string (for `generateText`), `None` where the code
gets `null` or `undefined`. `JSON.parse` is a parameter of
`GeminiService.GenerateJson`.

Two details of the code that the model keeps:

- The two evaluation fallbacks differ: the malformed-reply fallback trims
  both strings (Services/geminiService.ts:147) and the no-key fallback does
  not (Services/geminiService.ts:111). `GeminiService.FallbacksDisagreeOnPadding`
  shows this on `" Nigeria"`.
- The comment on `statusMessage` in types.ts names "Correct!", "Incorrect",
  "Close!" and the empty string. The empty-guess guard also writes
  "Empty guess", so `App.KnownStatus` admits five values.

## Model

| member | source | states |
|---|---|---|
| Text.Trim | Services/geminiService.ts:47 | `trim` returns the slice of its argument between the leading and the trailing whitespace, and the result neither starts nor ends with whitespace |
| Text.TrimRemovesOnlySpace | Services/geminiService.ts:147 | every character `trim` cuts off, on either side, is whitespace |
| Text.TrimIdempotent | Services/geminiService.ts:51 | trimming twice gives the same text as trimming once |
| Text.LowerTrimCommute | Services/geminiService.ts:147 | lower-casing and trimming commute |
| Text.LowerEqualIff | Services/geminiService.ts:111 | comparing `toLowerCase()` of two strings is exactly character-wise case-insensitive equality, in both directions |
| Text.NatToDecimal | Services/geminiService.ts:156 | the rendered count is a non-empty run of digits |
| Text.DecimalRoundTrip | Services/geminiService.ts:156 | reading the rendered count back gives the count |
| Text.NatToDecimalInjective | Services/geminiService.ts:156 | distinct counts render differently |
| Text.NatToDecimalCanonical | Services/geminiService.ts:156 | the rendered count is canonical: it opens with `0` only for zero itself |
| Json.Get | Services/geminiService.ts:102 | a property read yields a value exactly when the parsed value is an object with that key, and then yields that member |
| GeminiService.LeadingWordCount | Services/geminiService.ts:48 | the greedy `(\w*)?`: every character it skips is a word character and the next one, if any, is not |
| GeminiService.TagEnd | Services/geminiService.ts:48 | the optional language tag after the opening fence ends between the two fences |
| GeminiService.IsFenced | Services/geminiService.ts:48-49 | the anchored pattern, whose tag, whitespace and group 2 may all be empty, matches the trimmed reply exactly when it opens and closes with three backticks that do not overlap |
| GeminiService.FenceContent | Services/geminiService.ts:48-51 | group 2 of the match, trimmed: what lies between the fences after the greedy tag, with the whitespace on both sides removed |
| GeminiService.StripFence | Services/geminiService.ts:47-52 | the text handed to `JSON.parse` is already trimmed; a trimmed reply that is not fenced is returned as it is |
| GeminiService.StripFenceIsSlice | Services/geminiService.ts:47-52 | the result is the trimmed reply or a slice of it at least six characters shorter; a reply that does not open with three backticks is only trimmed |
| GeminiService.FenceContentAt | Services/geminiService.ts:48-51 | capture group 2 is the slice of the fenced text strictly between the two fences |
| GeminiService.StripFenceOfFenced | Services/geminiService.ts:50-51 | on a fenced reply with non-empty group 2 the result is group 2 |
| GeminiService.StripFenceFencedExample | Services/geminiService.ts:47-52 | a reply fenced with a `json` tag around `{}` is unwrapped to `{}` |
| GeminiService.StripFencePlainExample | Services/geminiService.ts:47 | the reply `" {} "` is only trimmed |
| GeminiService.GenerateJson | Services/geminiService.ts:33-63 | no value without a key or when the call fails; otherwise the parser's result on the stripped text |
| GeminiService.DefaultChallenge | Services/geminiService.ts:85-89 | the default challenge has three regions, all strings |
| GeminiService.ChallengeShapeOk | Services/geminiService.ts:102 | the guard on a generated challenge: a reply is present and truthy, its `regions` is an array of three elements, and its `country` and `playerQuestion` are strings |
| GeminiService.ChallengeShapeOkIff | Services/geminiService.ts:102 | a generated challenge is accepted exactly when it is an object whose `regions` is a three-element array and whose `country` and `playerQuestion` are strings; the elements are not inspected |
| GeminiService.ChallengeOf | Services/geminiService.ts:103 | an accepted challenge is read as its own `regions`, `country` and `playerQuestion` |
| GeminiService.GetRegionChallengeDetails | Services/geminiService.ts:84-107 | every outcome has three regions; without a key, or when the guard fails, the default challenge; otherwise the generated one |
| GeminiService.NoKeyEvaluation | Services/geminiService.ts:110-115 | without a key a guess is correct exactly when it equals the country ignoring case, with no trimming; the feedback is "That's the one!" or "Not quite, try another guess!"; never close |
| GeminiService.MalformedEvaluation | Services/geminiService.ts:146-152 | after an unusable reply a guess is correct exactly when the trimmed guess equals the trimmed country ignoring case; the feedback is "Correct!" or quotes the raw guess back; never close |
| GeminiService.EvaluationShapeOkIff | Services/geminiService.ts:138 | a generated evaluation is used exactly when it is an object with a boolean `isCorrect` and a string `feedback` |
| GeminiService.EvaluationShapeOk | Services/geminiService.ts:138 | the guard on a generated evaluation: a reply is present and truthy, its `isCorrect` is a boolean and its `feedback` a string |
| GeminiService.PassThroughEvaluation | Services/geminiService.ts:139-143 | a used evaluation keeps `isCorrect` and `feedback`; `isClose` holds exactly when the member is the boolean true |
| GeminiService.EvaluateCountryGuess | Services/geminiService.ts:109-153 | dispatches to the no-key fallback, the pass-through or the malformed-reply fallback; a near-miss can only come from a used generated evaluation |
| GeminiService.NoKeyCorrectImpliesMalformedCorrect | Services/geminiService.ts:111-147 | every guess the no-key fallback accepts is accepted by the malformed-reply fallback |
| GeminiService.FallbacksDisagreeOnPadding | Services/geminiService.ts:111-147 | `" Nigeria"` is rejected without a key and accepted after an unusable reply |
| GeminiService.FallbackRejectionHidesCountry | Services/geminiService.ts:112-150 | in both fallbacks the feedback for a rejected guess does not depend on the secret country |
| GeminiService.NoKeyExample | Services/geminiService.ts:110-115 | `"nigeria"` for Nigeria passes the no-key fallback with "That's the one!" |
| GeminiService.MalformedExample | Services/geminiService.ts:147 | after an unusable reply `"brazil"` is rejected and `" nigeria "` is accepted for Nigeria |
| GeminiService.WinTemplateSingularIff | Services/geminiService.ts:156 | the congratulation says "try" exactly when the count is one |
| GeminiService.WinTemplate | Services/geminiService.ts:156 | the default congratulation: "You got it in ", the count in decimal, " try" for one guess and " tries" otherwise, "! The country was: ", the country and a full stop |
| GeminiService.WinTemplateInjective | Services/geminiService.ts:156 | the congratulation determines both the count and the country |
| GeminiService.GetWinMessage | Services/geminiService.ts:155-167 | never empty; the template without a key or when the generated text is missing or empty, the generated text otherwise |
| GeminiServiceJs.StripFence | Services/geminiService.js:43-47 | equal to the TypeScript stripper on every reply; the trim and the `match && match[2]` test are written out again, the fence pattern (the same text as the TypeScript one) is the shared `GeminiService.IsFenced`/`GeminiService.FenceContent` |
| GeminiServiceJs.GenerateJson | Services/geminiService.js:29-59 | equal to the TypeScript `generateJson` on every input |
| GeminiServiceJs.GetRegionChallengeDetails | Services/geminiService.js:80-103 | equal to the TypeScript `getRegionChallengeDetails` on every input, default challenge included |
| GeminiServiceJs.EvaluateCountryGuess | Services/geminiService.js:105-145 | equal to the TypeScript `evaluateCountryGuess` on every input: both fallbacks and the pass-through |
| GeminiServiceJs.GetWinMessage | Services/geminiService.js:147-157 | equal to the TypeScript `getWinMessage` on every input |
| GeminiServiceJs.TemplateAgrees | Services/geminiService.js:148 | the JavaScript template literal builds the same congratulation as the TypeScript one |
| App.KnownStatus | types.ts:7 | the status line is "", "Correct!", "Incorrect", "Close!" or "Empty guess", the last one written by the empty-guess guard (App.tsx:76) |
| App.Valid | types.ts:7-11 | the session invariant every handler keeps: a known status line, and a correct guess only in a game that is over and not loading |
| App.InputDisabled | App.tsx:154 | the guess input is disabled while the service is loading or the game is over |
| App.RestartVisible | App.tsx:158 | the restart button shows once the game is over, or after at least one counted guess while nothing is loading |
| App.GuessInputShown | App.tsx:149 | the guess input is rendered only while the game is not over |
| App.GameSession.ApiKeyWarningShown | App.tsx:132 | the missing-key banner shows when the warning was raised and no key is available |
| App.GameSession.constructor | App.tsx:15-28 | the initial record: empty regions, country, guess and messages, the loading question, count 0, not over, loading, not correct; both key flags false |
| App.GameSession.BeginInitialize | App.tsx:31-45 | the loading phase writes loading, empty status, the restart or first-load texts, no regions and not correct, and leaves count, game-over flag, country and guess alone; records key availability and raises the warning only on a first load without a key |
| App.GameSession.ResolveInitialize | App.tsx:48-60 | the resolved challenge gives a fresh game: its regions, country and question, empty guess and messages, count 0, not over, not loading; input enabled and restart hidden |
| App.GameSession.InitializeGame | App.tsx:30-61 | after both phases the game has three regions, and without a key it is the default Nigeria challenge; the warning is shown exactly when no key is available and it was raised before or this is a first load |
| App.GameSession.GuessChange | App.tsx:67-69 | only the current guess changes |
| App.GameSession.BeginSubmitGuess | App.tsx:71-88 | a guess that trims to nothing sets only the two messages and requests no evaluation; otherwise the count goes up by one, loading starts, status and feedback are cleared, correctness is reset, input is disabled and the state the handler read is handed on |
| App.GameSession.ResumeSubmitGuess | App.tsx:90-119 | a correct evaluation requests the win message with the read count plus one and changes nothing yet; a wrong one shows its feedback, "Close!" or "Incorrect", clears the guess and ends loading, leaving the game-over flag |
| App.GameSession.CompleteWin | App.tsx:97-105 | the won game: message, "Correct!", over, not loading, correct, guess kept; input disabled and restart shown |
| App.GameSession.SubmitGuess | App.tsx:71-120 | the whole submission: the empty-guess outcome, or the count plus one with the win message (built with the new count) or the evaluation's feedback; without a key a won game's message is the template for the count shown |
| App.GameSession.HandleRestartGame | App.tsx:123-125 | restarting runs the loading phase with the restart texts and keeps the count and the game-over flag until the challenge resolves |
| App.NoKeySession | App.tsx:71-120 | without a key, a blank guess, "brazil", "Ghana" and "nigeria" give the statuses Empty guess, Incorrect, Incorrect, Correct!, a count of 3 and the congratulation for 3 tries |

## Left out

- The Gemini client and its construction from `process.env.API_KEY`
  (Services/geminiService.ts:1-17, Services/geminiService.js:1-22), and the
  calls to `generateContent` in `generateJson` and `generateText`
  (Services/geminiService.ts:39-45, Services/geminiService.ts:72-75,
  Services/geminiService.js:35-41, Services/geminiService.js:68-71): key
  availability and the backend's reply are parameters, so `generateText` is
  the `Option<string>` parameter of `GeminiService.GetWinMessage`.
  `isApiKeyAvailable` is the key parameter.
- App.GameSession.InitializeGame, App.GameSession.SubmitGuess and
  App.GameSession.HandleRestartGame take key availability as a parameter
  of each call, where the source fixes it once when the service module is
  loaded (Services/geminiService.ts:5-17); the model does not forbid a
  session set up without a key from being judged with one, and no property
  proved here depends on that.
- JSON syntax: `JSON.parse` is a parameter returning `None` on a syntax
  error.
- Prompt texts and `console` logging: they do not affect any returned value
  or state.
- Text.LowerChar: `toLowerCase` is modelled on ASCII letters only; other
  characters are left unchanged, where JavaScript maps the whole of Unicode.
- Text.IsWordChar: `\w` is the ASCII class, as JavaScript defines it for a
  pattern without the `u` flag.
- An accepted generated challenge is passed on
  as the object itself; the model keeps only the three members the game
  reads.
- GeminiService.ChallengeShapeOk: property reads on a truthy non-object value
  (a string's `length`, say) are modelled as yielding nothing; none of the
  keys the guards read exists on such a value.
- App.GameSession.SubmitGuess: React re-render timing and the stale closure
  are not modelled. The handler reads `gameState` as it was when the handler
  was created; the model takes the state at the start of the call, which
  is the same when no other update is pending. Interleavings of two
  submissions or of a submission with a restart are out of scope.
- The guess count is a `nat`: it is never negative and is never large
  enough for JavaScript's number precision to matter, which is not modelled.
- `useEffect` calling `initializeGame()` on mount is the constructor
  followed by `InitializeGame(false, ...)`.
- The footer date, the components under Components/ (presentational; the
  Enter-key guard of the guess input repeats the empty check), App.js and
  index.js (bootstrap).

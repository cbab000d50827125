# AlgoMaster AI clone-coding workflow, modelled in Dafny

AlgoMaster AI is a practice tool: the learner picks an algorithm from a catalog,
retypes its reference Python implementation in an editor, and submits the text to a
remote language model that grades how faithful the clone is. This project models the
three pieces of logic behind that page and proves what they do:

- `App` (app.dfy): the session state machine of `App.tsx`: the selected problem, the
  practice text, the application state (IDLE, ANALYZING, REVIEWED, ERROR) and the
  stored review result, changed by selecting a problem, going back to the menu,
  resetting, submitting, the review call settling, closing the review panel and
  editing. `App.Session` is the component as a class with one method per handler;
  each method is proved to perform a pure transition function on a `Snapshot` of
  the four fields, and the lemmas state what the transitions do, one step at a
  time and over whole action sequences (`Run`).
- `GeminiService` (gemini_service.dfy): `services/geminiService.ts`: the access-key
  check, the review prompt, the request sent to the model, the fail-soft fallback
  result and the hint.
- `EditorArea` (editor_area.dfy): `components/EditorArea.tsx`: the change handler
  and the Tab key, which replaces the selection with four spaces.
- `Types` (types.dfy) transcribes `types.ts`; `JsString` (jsstring.dfy) gives the
  ECMAScript semantics of `trim` and `substring`, with positions and lengths counted
  in characters (Unicode code points); `Catalog` (catalog.dfy) holds the
  `binary-search` entry of `constants.ts` as fixture data.

Interfaces the model takes as parameters: the environment's two key variables
(`GeminiService.Env`), the remote model (a function from the request to how the
call settles), `JSON.parse` (a function from the response text to what it yields),
and the answer a confirmation dialog would give (a boolean).

Behaviour of the code a reader might not expect, each shown by a lemma:

- No stale-result guard: a review that settles after the learner moved to another
  problem is stored and shown for that problem (`App.StaleResultApplied`).
- More than one review call can be outstanding: selecting another problem while
  ANALYZING resets the state to IDLE and so re-enables submit
  (`App.SecondCallWhileFirstPending`).
- A review result can exist outside REVIEWED: ERROR and closing the panel keep the
  previous result (`App.CompletionApplied`, `App.CloseKeepsResult`). The panel stays
  consistent only because it also tests the state (`App.PanelVisible`).
- The score is not clamped to 0..100 and the parsed answer is not validated
  (`GeminiService.ScoreNotClamped`).
- Both failure policies exist at once: every remote or parse failure becomes the
  fallback result and REVIEWED; ERROR is reached only when the access key is missing
  (`App.ErrorOnlyFromMissingKey`).

## Model

| member | source | states |
|---|---|---|
| `JsString.TrimStart` | App.tsx:52 | the result is a suffix of the input, everything removed is whitespace, and it does not start with whitespace |
| `JsString.TrimEnd` | App.tsx:52 | the result is a prefix of the input, everything removed is whitespace, and it does not end with whitespace |
| `JsString.Trim` | App.tsx:52 | `trim()` is a contiguous piece of the text starting where its leading whitespace ends, and what it cuts from the end is whitespace; it is empty exactly when the text is all whitespace; a non-empty result neither starts nor ends with whitespace |
| `JsString.Substring` | components/EditorArea.tsx:29 | for positions inside the string in either order, `substring` is the slice between them; never longer than the string |
| `JsString.SubstringFrom` | components/EditorArea.tsx:29 | `substring(k)` is the suffix from k, empty past the end |
| `GeminiService.GetAiClient` | services/geminiService.ts:4-10 | a client exists iff one of the two key variables is non-empty; `process.env.API_KEY` wins, and `VITE_API_KEY` is used when it is the only one set; otherwise the key error is thrown |
| `GeminiService.Prompt` | services/geminiService.ts:50-72 | the prompt is the fixed introduction, the title, the fixed reference header, the whole reference code, the fixed user-code header, the learner's code and the fixed instructions, each verbatim at computed positions in that order |
| `GeminiService.PromptDeterminesUserCode` | services/geminiService.ts:50-72 | for one problem, equal prompts imply equal learner code: the prompt keeps the whole submission |
| `GeminiService.Request` | services/geminiService.ts:75-83 | the request carries the key, the prompt, model gemini-2.5-flash, JSON output, the six required fields and temperature 0.1 |
| `GeminiService.Receive` | services/geminiService.ts:85-102 | a thrown call, an absent or empty text, or unparsable JSON gives the fallback; otherwise the parsed value is returned unchanged (null for JSON `null`) |
| `GeminiService.ReviewUserCode` | services/geminiService.ts:44-103 | without a key nothing is sent and the promise rejects with the key message; with a key the request sent is `Request` of that client and the prompt for the problem's title, reference code and the learner's code, and the promise always resolves with `Receive` of the answer |
| `GeminiService.Unusable` | services/geminiService.ts:85-91 | the answer is usable exactly when the call returned, the text is present and non-empty and `JSON.parse` does not throw on it; a thrown call is always unusable |
| `GeminiService.Fallback` | services/geminiService.ts:94-101 | the fallback is incorrect, score 0, both complexities "Unknown", the fixed message, and the problem's reference code as improved code |
| `GeminiService.FailureGivesFallback` | services/geminiService.ts:91-101 | after an unusable answer the result is incorrect, score 0, complexities "Unknown", the fixed message, and the reference code (not the learner's) as improved code |
| `GeminiService.EmptyResponseIsFailure` | services/geminiService.ts:85-88 | an absent or empty response text yields the fallback whatever the parser would do |
| `GeminiService.ScoreNotClamped` | services/geminiService.ts:90 | a parsed score of 150 reaches the caller unchanged |
| `GeminiService.GetHint` | services/geminiService.ts:105-108 | the hint is the fixed hint text |
| `GeminiService.HintIgnoresProblem` | services/geminiService.ts:105-108 | every problem gets the same non-empty hint |
| `EditorArea.HandleChange` | components/EditorArea.tsx:12-16 | `onChange` is called iff the editor is editable, with the textarea value unchanged |
| `EditorArea.TabInsert` | components/EditorArea.tsx:23-35 | the caret goes four characters past the selection start |
| `EditorArea.HandleKeyDown` | components/EditorArea.tsx:18-37 | a change happens iff the editor is editable and the key is Tab; then the text is prefix + four spaces + suffix and the caret is start + 4 |
| `EditorArea.TabSplice` | components/EditorArea.tsx:24-34 | new length is old length minus the selection plus 4; prefix before the selection and suffix after it kept; the four spaces sit before the caret, which lies inside the text |
| `EditorArea.TabUndo` | components/EditorArea.tsx:29-34 | with an empty selection, deleting the four characters before the new caret gives back the old text |
| `App.Session.constructor` | App.tsx:11-14 | no problem, empty text, IDLE, no result |
| `App.Session.RunProblemEffect` | App.tsx:17-23 | a newly selected non-null problem restores its boilerplate, IDLE and no result; otherwise nothing changes |
| `App.Session.SelectProblem` | App.tsx:25-32 | the dialog is shown iff a problem is selected, the text differs from its boilerplate, is not blank and the state is not REVIEWED; the new state is `AfterSelect` |
| `App.Session.ReturnToMenu` | App.tsx:34-41 | the dialog condition of the handler, and the new state `AfterReturnToMenu` |
| `App.Session.Reset` | App.tsx:43-49 | the dialog is shown iff a problem is selected; the new state is `AfterReset` |
| `App.Session.BeginSubmit` | App.tsx:51-54 | returns the call issued (`SubmitCall`, none while the button is disabled) and sets ANALYZING when one is issued |
| `App.Session.CompleteSubmit` | App.tsx:55-63 | a resolved call stores its value and sets REVIEWED, a rejected one sets ERROR |
| `App.Session.Close` | App.tsx:234-238 | the panel's close sets IDLE when the panel is shown |
| `App.Session.Edit` | App.tsx:224-230 | the practice editor stores the typed text unless disabled |
| `App.Session.KeyDown` | App.tsx:224-230 | a key press performs `AfterKeyDown`; a caret is written iff the editor is enabled and the key is Tab, at start + 4 |
| `App.ProblemEffect` | App.tsx:17-23 | the effect never changes the selection; a newly selected non-null problem gets its boilerplate, IDLE and no result; otherwise the snapshot is unchanged |
| `App.SelectNeedsConfirm` | App.tsx:26 | the dialog is asked iff a problem is selected, the text differs from its boilerplate, is not all whitespace, and the state is not REVIEWED |
| `App.AfterSelect` | App.tsx:25-32 | a declined dialog changes nothing; otherwise a different problem becomes the selection with its boilerplate, IDLE and no result, and re-selecting the current problem changes nothing |
| `App.ReturnNeedsConfirm` | App.tsx:35 | the dialog is asked iff (no problem is selected or the text differs from its boilerplate), the text is not all whitespace, and the state is not REVIEWED |
| `App.AfterReturnToMenu` | App.tsx:34-41 | text, state and result are kept; the selection is kept or cleared |
| `App.AfterReset` | App.tsx:43-49 | the selection is kept; either nothing changes or the text is the problem's boilerplate, IDLE and no result |
| `App.SubmitCall` | App.tsx:51-54 | a call is issued iff the submit button is enabled (it is disabled while ANALYZING, App.tsx line 188), the text is not all whitespace and a problem is selected; it carries the selected problem and the current text |
| `App.AfterBeginSubmit` | App.tsx:51-54 | selection, text and result are kept; the state becomes ANALYZING only when a call is issued, otherwise nothing changes |
| `App.AfterComplete` | App.tsx:55-63 | selection and text are kept; the state is ERROR iff the call rejected (the result is then kept), otherwise REVIEWED with the resolved value |
| `App.PanelVisible` | components/ReviewPanel.tsx:12 | the review panel is shown iff the state is REVIEWED and a result is stored |
| `App.AfterClose` | App.tsx:237 | selection, text and result are kept; the state becomes IDLE iff the panel is shown, otherwise it is unchanged |
| `App.AfterEdit` | App.tsx:224-230 | only the text can change: it becomes the typed text iff the editor is enabled |
| `App.AfterKeyDown` | App.tsx:224-230 | only the text can change, and only when the editor is enabled and the key is Tab |
| `App.SubmitIgnored` | App.tsx:51-52 | no call is issued iff ANALYZING, blank text or no problem, and then nothing changes |
| `App.SubmitAccepted` | App.tsx:52-56 | an accepted submit calls with the selected problem and current text, sets ANALYZING and keeps text, selection and previous result |
| `App.CompletionApplied` | App.tsx:55-63 | resolution stores the value and sets REVIEWED; rejection sets ERROR and keeps the old result; neither touches selection or text |
| `App.SelectOtherProblem` | App.tsx:17-31 | selecting a different problem without a declined dialog gives that problem, its boilerplate, IDLE, no result |
| `App.SelectSameProblem` | App.tsx:17-31 | re-selecting the current problem changes nothing |
| `App.ConfirmDeclined` | App.tsx:26-29 | a declined dialog of select, back or reset leaves every field unchanged |
| `App.NavigationDialogsAgree` | App.tsx:26-35 | on the workspace, select and back ask under the same condition |
| `App.ReturnToMenuKeepsWork` | App.tsx:17-41 | going back clears only the selection; text, state and result stay |
| `App.ReturnThenReselectResets` | App.tsx:17-41 | going back and choosing the same problem again resets it |
| `App.ResetRestores` | App.tsx:43-49 | an accepted reset with a problem gives boilerplate, IDLE, no result and the same selection; otherwise nothing changes |
| `App.CloseKeepsResult` | App.tsx:234-238 | closing sets IDLE and keeps the result, which is then hidden |
| `App.AnalyzingLocksEditing` | App.tsx:186-230 | while ANALYZING, submit, typing and keys change nothing |
| `App.EditingStoresText` | App.tsx:224-230 | otherwise typing stores the text and Tab splices four spaces over the selection of the practice text |
| `App.NullReviewHidesPanel` | App.tsx:55-58 | a review that resolves with null sets REVIEWED but the panel stays hidden |
| `App.StaleResultApplied` | App.tsx:51-63 | a result arriving after a switch to another problem is stored and shown with that problem |
| `App.SecondCallWhileFirstPending` | App.tsx:17-54 | after switching problems while ANALYZING, a second call can be issued before the first settles |
| `App.SelectBinarySearch` | App.tsx:25-31 | choosing binary-search from the menu shows its boilerplate in IDLE; a whitespace-only text then issues no call |
| `App.SettledReview` | App.tsx:55-63 | a settled review ends in ERROR iff the key is missing; with a key it ends REVIEWED with the value `Receive` gives |
| `App.StepIntoError` | App.tsx:55-63 | one action enters ERROR only by settling a review call made without a key |
| `App.ErrorOnlyFromMissingKey` | App.tsx:59-62 | over any action sequence, ERROR is entered only by a review call made without a key |

## Left out

- Page layout, styling, icons, `getDifficultyColor`, the problem list and the review
  panel's content: presentation only. The panel's visibility test is kept
  (`App.PanelVisible`) because it decides whether the close button exists.
- The Gemini SDK, the construction of `GoogleGenAI`, the reading of environment
  variables, `console.error` and `alert`: foreign calls, replaced by parameters or
  dropped. The schema's field descriptions are not modelled, only its required
  field names.
- `JSON.parse` yielding anything other than `null`, a six-field object or a syntax
  error (a number, an object with missing fields): the model's result type cannot
  hold such values.
- `score` is a JavaScript number; the model uses an unbounded integer, so fractional
  scores are not modelled.
- `window.confirm` is a boolean parameter; `setTimeout` and React's batching of state
  updates are not modelled: each handler with its effect is one atomic step.
- Problems are compared by value where React compares object references; for the
  catalog's records, which have distinct ids, the two agree.
- A `Complete` action in a `Run` is not tied to an earlier `Submit`: the lemmas about
  whole runs hold for any interleaving of settlements.
- The catalog is fixture data: only one of its seven entries (`binary-search`) is
  transcribed, and the reference program in it is text, never run.
- Positions and lengths are counted in Unicode code points, one per Dafny `char`.
  JavaScript counts UTF-16 code units in `length`, `substring`, `selectionStart` and
  `selectionEnd`, so text outside the Basic Multilingual Plane, and a selection that
  splits a surrogate pair, are not modelled.

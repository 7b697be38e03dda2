# Template rendering and request state of a terminal HTTP client

This project is a Dafny model of two parts of a terminal HTTP client.

The first part is the **template engine**. A string such as
`{{user_id}} {{chains.auth_token}}` has its placeholders replaced by values:

- a plain key is a *field*, taken from the overrides or else from the
  active profile;
- `chains.<id>` is a *chain*: a value taken from the last response of
  another recipe, optionally narrowed by a JSON path;
- `env.<name>` is a variable of the process environment.

Rendering fails at the first key that cannot be resolved. Errors have a
borrowed form, used inside the engine, and an owned form handed to
callers.

The second part is the **interface state**:

- the request each recipe has in flight, and how it starts, finishes and
  fails;
- which recipe is selected, and so whether a new request may be sent;
- the cycling list and tab cursors;
- reloading the collection;
- the notification that expires after five seconds.

Modules:

- `Scanner`: a hand-written equivalent of the placeholder regular
  expression `\{\{\s*([\w\d._-]+)\s*\}\}`. It cuts a template into literal
  and placeholder pieces. Two lemmas show that scanning and printing are
  inverse (`ScanPrint`, `PrintScan`).
- `TemplateKeys`: key parsing, by splitting on `.` the way Rust's
  `str::split` does, and its inverse `Unparse`.
- `TemplateSources`: resolving one key. The response store, the process
  environment and the JSON machinery are parameters (`Context`, `Host`).
- `TemplateRender`: the reference semantics `Expand`, the engine's
  single left-to-right pass `RenderBorrow` (proved equal to `Expand`), and
  the owned-error `Render`.
- `TemplateErrors`, `JsonModel`, `Http`: the error taxonomy, the
  "exactly one node" check, and the response records.
- `RequestStates`, `Selection`, `AppStates`: the interface state.

Times are integers in milliseconds. The current time is always a parameter.

Three facts about the code shape the error model:

- The error taxonomy has the ten variants of `TemplateError`. There is no
  transport variant.
- When the response store cannot be read, a chain fails with `Repository`
  carrying the store's error. It does not fail with `ChainNoResponse`.
- A body is first parsed as its content type says. Only after that is it
  required to be JSON (`ChainIncorrectContentType`).

## Model

| member | source | states |
|---|---|---|
| Scanner.MatchAtComplete | src/template.rs:68-69 | any placeholder occurrence (`{{`, spaces, one or more key characters, spaces, `}}`) starting at a position is exactly what the matcher returns there, so each position has at most one match |
| Scanner.MatchAtSound | src/template.rs:68-69 | whatever the matcher returns has the placeholder shape |
| Scanner.FindFromLeftmost | src/template.rs:77 | the search returns the leftmost occurrence at or after a position, and nothing only when no position has one |
| Scanner.SkipRun | src/template.rs:69 | a run of spaces or key characters ends at the first character outside the class, and every character passed is inside it |
| Scanner.ScanPrint | src/template.rs:75-93 | the pieces cut from a template glue back to exactly the template: no text is lost or duplicated between the matches |
| Scanner.PrintScan | src/template.rs:75-93 | a well-formed piece list is recovered by scanning its own text, so the cut is unique |
| Scanner.ScanPrinted | src/template.rs:75-93 | the same, starting anywhere in a larger text |
| Scanner.ScanWellFormed | src/template.rs:75-93 | scanning yields non-empty literals free of placeholders, never two literals in a row, and holes whose key is one or more key characters between spaces |
| TemplateKeys.Split | src/template.rs:120 | splitting on `.` gives at least one piece, no piece contains `.`, and joining the pieces with `.` gives back the text |
| TemplateKeys.SplitJoin | src/template.rs:120 | splitting undoes joining for dot-free pieces, so the pieces of a key are determined by its text |
| TemplateKeys.Parse | src/template.rs:119-126 | every failure is `InvalidKey` carrying the whole raw key |
| TemplateKeys.ParseUnparse | src/template.rs:119-126 | every successfully parsed key is dot-free and is written exactly as the text it came from |
| TemplateKeys.UnparseParse | src/template.rs:119-126 | every dot-free field, chain or environment key is parsed back from its text |
| TemplateKeys.ParseEmptyChainId | src/template.rs:597 | `chains.` parses as a chain with an empty id |
| TemplateKeys.ParseRejectsEmptyPieces | src/template.rs:607-610 | `.`, `.bad` and `bad.` are invalid keys |
| TemplateKeys.ParseRejectsExtraPiece | src/template.rs:611 | `chains.good.bad` is an invalid key |
| TemplateKeys.RejectTwoPieces | src/template.rs:120-124 | two pieces whose first is neither `chains` nor `env` are an invalid key |
| TemplateSources.ResolveField | src/template.rs:164-177 | a field succeeds exactly when the overrides or the profile hold it; an override wins over the profile; otherwise the error is `FieldUnknown` with the field |
| TemplateSources.FindChainFirst | src/template.rs:192-196 | chain lookup fails exactly when no chain has the id, and otherwise returns the first declared chain with it |
| TemplateSources.GetLast | src/template.rs:197-202 | a recipe unknown to the store has no response; a stored record is returned as it is; a store failure is returned with its cause |
| TemplateSources.Stringify | src/template.rs:241-244 | a selected JSON string gives its unquoted contents; any other value gives its compact JSON text |
| TemplateSources.Select | src/template.rs:205-245 | a bad path gives `ChainJsonPath` with the path and parser error; an unparsable body gives `ChainParseResponse`; a body that is not JSON gives `ChainIncorrectContentType`; zero nodes give `ChainInvalidResult` with `Empty`, and n ≥ 2 give it with `MoreThanOne(n)`; exactly one node gives that node stringified; every failure names the chain |
| TemplateSources.ResolveChain | src/template.rs:186-248 | an unknown chain gives `ChainUnknown`; a store failure gives `Repository`; no stored response gives `ChainNoResponse`; without a path the result is the stored body verbatim, with one it is the path selection from the stored response; every other failure names the chain |
| TemplateSources.ResolveEnv | src/template.rs:257-268 | an environment key succeeds exactly when the variable is set to Unicode text, giving that text; an unset variable is `NotPresent`, non-Unicode bytes are `NotUnicode` |
| TemplateSources.ResolveKey | src/template.rs:128-137 | a failure to resolve a key names that key's field, chain or variable, unless it is a response-store failure, which only a chain key can meet |
| TemplateSources.ResolveRaw | src/template.rs:82-83 | an unparsable key fails with `InvalidKey` of the raw text; any other failure names the key's field, chain or variable, or is a store failure |
| JsonModel.ExactlyOne | src/template.rs:233-239 | a query result succeeds exactly when it has one node, which is returned; no node is `Empty`, several are `MoreThanOne` with their count |
| TemplateErrors.IntoOwned | src/template.rs:348-405 | conversion keeps every variant and payload except that an incorrect-content-type failure becomes a parse-response failure with the same chain id and cause; the error's subject is preserved |
| TemplateErrors.IntoOwnedIdempotent | src/template.rs:348-405 | converting an owned error changes nothing, so conversion is idempotent |
| TemplateErrors.IntoOwnedCollisions | src/template.rs:384-389 | two errors convert to the same owned error only when equal or differing only in that one variant |
| TemplateRender.RenderBorrow | src/template.rs:62-96 | the engine's single pass over the matches (copy text up to each match, parse the key, resolve it, append it, stop at the first failure, then copy the tail) computes the reference expansion of the scanned template |
| TemplateRender.ExpandFound | src/template.rs:77-91 | one step of the pass: expansion from a position is the text before the next match and its value ahead of the expansion after it, or that match's error |
| TemplateRender.Render | src/template.rs:47-56 | the owned rendering succeeds exactly when the borrowed one does, with the same text; on failure it carries the template and the owned form of the borrowed error |
| TemplateRender.PlainRendersItself | src/template.rs:439-440 | a template with no placeholder renders to itself |
| TemplateRender.ExpandIgnoresSpaces | src/template.rs:69 | the spaces inside the braces around a key do not change what a piece list renders to |
| TemplateRender.RenderIgnoresSpaces | src/template.rs:69 | a template renders as the same template with every placeholder written without inner spaces |
| TemplateRender.FirstFailureWins | src/template.rs:77-83 | rendering fails exactly when some key fails, and then with the error of the leftmost failing key |
| TemplateRender.ExpandAppend | src/template.rs:75-95 | rendering is compositional: two pieces of template render one after the other, and an error in the first wins |
| TemplateRender.RepeatedKeyRendersTwice | src/template.rs:77-91 | each occurrence of a repeated key is resolved on its own: its value appears twice, or the render fails with its error |
| TemplateRender.EmptyBracesAreText | src/template.rs:69 | text that does not match the placeholder pattern, such as `{{}}`, is copied literally |
| TemplateRender.FieldsScan | src/template.rs:441-445 | the field test's template scans into two holes around a space |
| TemplateRender.OverrideBeatsProfile | src/template.rs:424-445 | with `user_id` 1 in the profile and 2 in the overrides and `group_id` 3 in the profile, `{{user_id}} {{group_id}}` renders to `2 3` |
| RequestStates.RequestState.StartTime | src/tui/state.rs:326-332 | the start time of a loading or failed request is the one it stores, and a response's is its record's start |
| RequestStates.LoadingIffClockRuns | src/tui/state.rs:321-323 | a request is loading exactly when its duration still moves with the clock |
| RequestStates.RequestState.Duration | src/tui/state.rs:336-346 | a loading request's duration runs from its start to now; a response's and an error's run from start to end |
| RequestStates.FinishedDurationFixed | src/tui/state.rs:336-346 | a finished request's duration does not depend on the clock |
| RequestStates.LoadingDurationGrows | src/tui/state.rs:336-346 | a loading request's duration grows by exactly the time that passes |
| Selection.WithItems | src/tui/state.rs:378-385 | a new list holds the items and selects the first one exactly when there is one |
| Selection.SelectedItem | src/tui/state.rs:388-390 | the selected item exists exactly when the selection is set and in range, and is the item at that index |
| Selection.NextAsWritten | src/tui/state.rs:408-414 | as written, `next` fails exactly on an empty list with a selection and otherwise always selects something |
| Selection.PreviousAsWritten | src/tui/state.rs:392-405 | as written, `previous` fails exactly on an empty list with index 0 selected and otherwise always selects something |
| Selection.EmptyListNextFails | src/tui/state.rs:408-414 | on an empty list the first `next` selects a missing item and the second fails |
| Selection.EmptyListPreviousFails | src/tui/state.rs:392-405 | on an empty list the first `previous` selects a missing item and the second fails |
| Selection.Next | src/tui/state.rs:408-414 | the corrected `next` keeps the items and a valid selection, and selects something exactly when the list is not empty |
| Selection.Previous | src/tui/state.rs:392-405 | the corrected `previous` keeps the items, keeps a valid selection valid, and selects something exactly when the list is not empty |
| Selection.MovesAgreeOnNonEmpty | src/tui/state.rs:392-414 | on a non-empty list with a valid selection the corrected moves are the written ones |
| Selection.ListMovesWrap | src/tui/state.rs:392-414 | moves step by one and wrap at both ends; with nothing selected both select the first item |
| Selection.ListMovesInverse | src/tui/state.rs:392-414 | once something is selected, `previous` undoes `next` and `next` undoes `previous` |
| Selection.NewSelect | src/tui/state.rs:433-442 | a fixed selection exists exactly when there are values, and starts at the kind's default index |
| Selection.SelectedValue | src/tui/state.rs:450-452 | the selected value is the value at the selected index |
| Selection.NextValue | src/tui/state.rs:469-471 | `next` moves one place forward, wrapping from the last value to the first |
| Selection.PreviousValue | src/tui/state.rs:460-466 | `previous` moves one place back, wrapping from the first value to the last |
| Selection.SelectMovesInverse | src/tui/state.rs:460-471 | `previous` and `next` undo each other |
| Selection.AdvanceWraps | src/tui/state.rs:469-471 | up to a full round, `n` steps forward land `n` places on, wrapping once past the end |
| Selection.AdvanceFullCycle | src/tui/state.rs:469-471 | as many steps forward as there are values return to the start |
| Selection.PaneSelect | src/tui/state.rs:480-504 | the panes start with focus on the recipe list |
| Selection.RequestTabSelect | src/tui/state.rs:506-513 | the request tabs start on the body tab |
| Selection.ResponseTabSelect | src/tui/state.rs:515-521 | the response tabs start on the body tab |
| AppStates.NewUi | src/tui/state.rs:236-248 | a fresh interface state has nothing in flight and no error or notification; it holds the collection's profiles, recipes and chains, with the first profile and first recipe selected when there are any; the panes list all four in order with focus on the recipe list, and both tab sets list their tabs with the body tab selected |
| AppStates.ReloadCollection | src/tui/state.rs:89-91 | reloading replaces the whole interface state with a fresh one for the new collection, which drops in-flight requests, the error and the notification; the quit flag and collection file are kept |
| AppStates.Start | src/tui/state.rs:143-164 | starting leaves an already-loading recipe as it is and otherwise marks it loading since now; no other recipe changes |
| AppStates.Finish | src/tui/state.rs:167-182 | a completion is stored only for a recipe that is loading; otherwise nothing changes; no other recipe changes |
| AppStates.Fail | src/tui/state.rs:185-207 | a failure is stored only for a loading recipe, keeping its start time and ending now; otherwise nothing changes; no other recipe changes |
| AppStates.StartRequest | src/tui/state.rs:143-164 | starting a request changes only the in-flight map, and changes it as `Start` does |
| AppStates.FinishRequest | src/tui/state.rs:167-182 | completing a request changes only the in-flight map, and changes it as `Finish` does |
| AppStates.FailRequest | src/tui/state.rs:185-207 | failing a request changes only the in-flight map, and changes it as `Fail` does |
| AppStates.TransitionsAllowed | src/tui/state.rs:143-207 | no transition restarts a loading request or completes one that is not loading |
| AppStates.StartIdempotent | src/tui/state.rs:150-157 | starting twice is starting once |
| AppStates.FinishOnce | src/tui/state.rs:167-207 | only the first completion of a request is kept |
| AppStates.FailFreezesDuration | src/tui/state.rs:197-201 | a failed request's duration is fixed at failure time |
| AppStates.ActiveRequest | src/tui/state.rs:126-131 | the shown request is the in-flight state of the selected recipe, present exactly when a recipe is selected and has one |
| AppStates.CanSendRequest | src/tui/state.rs:135-140 | sending is refused exactly when the selected recipe's request is loading |
| AppStates.SendBlockedWhileLoading | src/tui/state.rs:135-207 | after starting the selected recipe's request, sending is refused until it finishes or fails |
| AppStates.ReloadDropsStaleCompletions | src/tui/state.rs:89-91 | after a reload, a completion or failure of an earlier request changes nothing |
| AppStates.CurrentNotification | src/tui/state.rs:114-122 | reading the notification clears it once expired; what is returned is the stored one and is not expired, and an unexpired one is always returned |
| AppStates.ExpiryMonotone | src/tui/state.rs:353-366 | a notification expires 5000 ms after its timestamp and stays expired; a fresh one has not expired |

## Left out

- Scanner.IsKeyChar: the pattern's `\w` and `\d` match Unicode letters and digits. The model accepts ASCII letters, digits, `_`, `.` and `-` only. `\s` is modelled in full, as the Unicode White_Space property.
- JSON-path parsing and querying, content-type-directed body parsing, the JSON view of a parsed body and compact JSON printing are given functions (`Host`). They are third-party code.
- Reading the response store and the environment is asynchronous I/O. Both are maps in `Context` and `Host`.
- Display texts of errors, and the `anyhow` context message that `render` adds, are left out. The owned failure keeps only the template and the cause.
- The wrapped infrastructure errors in `Repository` and in request failures are kept as text only.
- Tracing and logging calls do nothing in the model. This includes the error logged when a transition is refused.
- The message channel, `Message`, `input_handler`, the error popup (`set_error`, `clear_error`), `notify` and `quit` are interface plumbing. They are left out.
- `Utc::now` is a parameter. Overflow of the clock's time arithmetic is not modelled.
- Selection.PreviousAsWritten: an underflow in `previous` is treated as a failure, as in a debug build. A release build would wrap instead.
- The HTTP client (src/http.rs) and the view code are not part of this model.

## Findings

| source | as written | input that shows it | evidently intended | confidence | as-written member | corrected member |
|---|---|---|---|---|---|---|
| src/tui/state.rs:392-414 | With no selection, `next` and `previous` select index 0 even when the list is empty. On an empty list with a selection, `next` divides by zero and `previous` underflows the index. | An empty collection's recipe list: first `next`, then `next` again. | On an empty list, moving leaves nothing selected. The selection always points at an item. | not executed | Selection.NextAsWritten, Selection.PreviousAsWritten, Selection.EmptyListNextFails, Selection.EmptyListPreviousFails | Selection.Next, Selection.Previous, Selection.MovesAgreeOnNonEmpty |

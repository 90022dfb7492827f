# Todo-list reducer of the React Native exercise app

This project models the non-UI logic of the app's single screen. The `App` component owns an ordered list of todo entries (`{text, isDone}`), and three operations replace that list with a new one:

- `submitEntry` adds a pending entry at the end. It refuses the text when a pending entry with the same text already exists.
- `setIsDone` maps over the list and replaces the done flag of the entry at one position.
- `delItem` filters the list and drops the entry at one position.

The `Form` component's `submit` handler sits in front of `submitEntry`. It ignores an empty input, clears the input when the add is accepted, and keeps it when the add is refused.

The source has no loops and no in-place mutation. Each operation builds a fresh array from an expression. So the model is pure: `TodoStore` (todo_store.dfy) holds functions over `seq<Entry>`, and `Form` (form.dfy) holds a function over the pair of the list and the form's input text. The JavaScript `some`, `map` and `filter` calls are modelled as recursive functions over the list. The index counts down with each step, so an index that is negative or past the end never matches, just as `===` against the position never matches in the source. That makes an out-of-range index a no-op for both `setIsDone` and `delItem`.

The text bound comes from the form: `submit` refuses an empty text, and the input widget caps it at 50 characters. It is a `requires` of `SubmitEntry`, and `Form.Submit` requires only the 50-character cap.

"No two pending entries share a text" is not an invariant of the whole store. Adding, deleting and marking an entry done all preserve it. Clearing the done flag of an entry can break it, and `ClearingDoneCanDuplicate` shows a session where that happens.

## Model

| member | source | states |
|---|---|---|
| TodoStore.HasPending | App.js:105 | the `some` scan is true exactly when some position holds a pending entry with the given text |
| TodoStore.SubmitEntry | App.js:104-110 | accepted exactly when no entry with that text is pending; a refused add leaves the list unchanged; an accepted add keeps the old list as a prefix, grows it by one, and ends it with a new pending entry with the text |
| TodoStore.SubmitPendingCount | App.js:104-110 | after an accepted add exactly one pending entry has the text, and there were none before; after a refused add at least one still has it |
| TodoStore.DoneEntriesDoNotBlock | App.js:105 | entries with the same text that are done do not block the add, which appends the new entry |
| TodoStore.SubmitKeepsNoPendingDuplicates | App.js:104-110 | an add never creates two pending entries with the same text |
| TodoStore.PendingCountPositive | App.js:105 | the number of pending entries with a text is positive exactly when the `some` scan finds one |
| TodoStore.PendingCountAppend | App.js:108 | appending an entry raises the pending count of a text by one if the entry is pending with that text, and by zero otherwise |
| TodoStore.SetIsDone | App.js:112-121 | length, order and every text are kept; every position other than `index` is unchanged; an in-range `index` gets the given done flag |
| TodoStore.SetIsDoneInRange | App.js:113-119 | for an in-range index the result is the list with only that entry's done flag replaced |
| TodoStore.SetIsDoneOutOfRange | App.js:114-118 | an index outside the list matches no position and leaves the list unchanged |
| TodoStore.SetIsDoneIdempotent | App.js:112-121 | applying it twice with the same flag and index equals applying it once |
| TodoStore.SetDoneKeepsNoPendingDuplicates | App.js:112-121 | marking an entry done never creates two pending entries with the same text |
| TodoStore.ClearingDoneCanDuplicate | App.js:104-121 | add "A", mark it done, add "A" again (accepted), then clear the first entry's flag: two pending entries now share the text |
| TodoStore.DelItem | App.js:123-126 | an in-range index yields the list without that position, `list[..i] + list[i+1..]`; any other index leaves the list unchanged |
| TodoStore.DelItemShifts | App.js:125 | deleting position `i` shortens the list by one, keeps the entries before `i` and moves every later entry down by one |
| TodoStore.DelItemKeepsNoPendingDuplicates | App.js:123-126 | deleting never creates two pending entries with the same text |
| TodoStore.SubmitAll | App.js:104-110 | over a run of adds, the list grows by exactly the number of accepted adds, at most one per text offered, and the starting list stays a prefix |
| TodoStore.SubmitAllKeepsNoPendingDuplicates | App.js:104-110 | a run of adds from a list without duplicate pending entries ends without any |
| TodoStore.SameTextTwiceRefused | App.js:104-110 | adding "Buy milk" twice: the second add is refused and the list keeps one entry |
| TodoStore.DeleteFirstOfTwo | App.js:123-126 | adding "A" and "B" and deleting position 0 leaves only the pending "B" |
| Form.Submit | App.js:30-39 | an empty input changes nothing and offers nothing to the store; a refused text leaves the list and the input as they were; an accepted text is appended as pending and the input is cleared |
| Form.SubmitClearsIffAdded | App.js:34-38 | the input is cleared exactly when a non-empty text was added to the list |
| Form.SubmitKeepsScreenInvariant | App.js:30-39 | a submit keeps the input within 50 characters and never creates two pending entries with the same text |

## Left out

- Rendering and styling are not modelled: `Item`, `TodoList`, the JSX trees, the style sheet, the status bar, the list view and the switch have no behaviour to state.
- The dark-mode colour choice is not modelled. It is a device query that only picks colour constants.
- The `alert` shown on a refused add is not modelled. Only its consequence, that the input keeps its text, is stated.
- The input widget's 50-character cap is not modelled as widget behaviour. It appears only as a precondition.
- React state scheduling is not modelled. In the source, `submitEntry` scans the list captured by the render while it appends to the list React passes in. The model applies every operation atomically to the current list, so that stale-closure effect is not captured.
- Indices are modelled as integers. The source's `===` on other JavaScript values (strings, fractions) never matches either, so such calls are no-ops as well.

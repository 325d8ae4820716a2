# To-do list task store, in Dafny

This project models the task store of a browser to-do list application.
The store is the `TodoApp` class in `script.js`. It keeps an ordered list of
tasks, each with an id, a text and a completion flag, plus a counter that
gives the next id. It changes only through four operations:

- adding a task from the entry form, with the text trimmed and blank text ignored;
- toggling a task's completion, which may start the "all done" celebration;
- deleting a task;
- loading the saved list, which raises the counter above every loaded id.

The count display, `getStats` and `areAllTasksCompleted` are read-only
queries over the list.

Every operation is a pure function from the old `AppState(tasks, counter)`
to the new one. Toggling also returns whether the celebration starts.
The application saves and re-renders after every add, toggle and delete.
After a load it only re-renders. Here both are left to the caller.

Modules:

- `Text` (`text.dfy`): JavaScript's `String.prototype.trim`. It strips the ECMAScript WhiteSpace and LineTerminator code points, listed one by one. It also holds the decimal rendering of a non-negative integer inside a template literal, with a parser that inverts it.
- `Tasks` (`tasks.dfy`): the `Task` datatype, lookup of the first task with a given id, the completion counts, `getStats`, `areAllTasksCompleted`, and the count display with its parser.
- `Store` (`store.dfy`): `AppState`, the store invariant, and add, toggle, delete. It also holds the lemmas about the celebration, toggle and delete, and which operations keep the invariant.
- `Storage` (`storage.dfy`): the saved record, the storage slot as found at start-up, save, and load with counter reconciliation.
- `Trace` (`trace.dfy`): runs of user actions. It shows that the invariant holds across a session and that ids handed out are increasing and never reused.
- `Scenarios` (`scenarios.dfy`): concrete sessions from a fresh start.
- `Wrappers` (`wrappers.dfy`): `Option`.

The store invariant `Store.Valid` says three things. The counter is at least 1. Every id is below the counter. No two tasks share an id.
The first two together are `Store.CounterAboveIds`.
A separate pair of predicates says that ids ascend along the list and that every text is non-empty and trimmed.
Add, toggle and delete keep both.
Load always establishes `CounterAboveIds`. It establishes `Valid` only when the loaded ids are distinct, because the code does not check this. It does not check that loaded texts are trimmed either. So the invariant the store is meant to keep holds only for data this application saved itself. That invariant is: distinct ids below the counter, and non-empty trimmed texts.

## Model

| member | source | states |
|---|---|---|
| Text.Trim | script.js:41 | the trimmed text is the infix of the input after its leading run of whitespace; it is empty exactly when the input is all whitespace or line terminators; otherwise it neither starts nor ends with one |
| Text.TrimOfTrimmed | script.js:41 | text with no whitespace at either end is left unchanged by trim |
| Text.TrimIdempotent | script.js:41 | trimming twice is the same as trimming once, so a stored text is already in trimmed form |
| Text.Decimal | script.js:211 | a count renders as at least one digit, with a leading zero only for zero itself |
| Text.ParseDecimalOfDecimal | script.js:211 | reading a rendered count back gives the count |
| Tasks.FindIndex | script.js:91 | the result is -1 exactly when no task has the id; otherwise it is the position of the first task with that id |
| Tasks.CountCompleted | script.js:206 | the completed count never exceeds the number of tasks |
| Tasks.CompletedPlusPending | script.js:231-237 | the completed count and an independently counted pending count add up to the length of the list |
| Tasks.GetStats | script.js:231-237 | total is the list length; completed is the number of completed tasks; pending is never negative, equals the number of tasks not completed, and completed plus pending is total |
| Tasks.CountCompletedIsLength | script.js:242-244 | every task is completed exactly when the completed count equals the list length |
| Tasks.AllCompleted | script.js:242-244 | every task is completed exactly when the list is non-empty and the independently counted pending tasks number zero |
| Tasks.AllCompletedIffNonePending | script.js:242-244 | "all tasks completed" holds exactly when the statistics show at least one task and none pending |
| Tasks.CountDisplay | script.js:204-213 | the display is "0" exactly when there are no tasks, and is all digits only then |
| Tasks.CountDisplayRoundTrip | script.js:204-213 | reading the display back gives the completed count and the total of the statistics; the reader accepts only plain decimal without leading zeros, so the display is exactly "<completed>/<total>" |
| Store.InitialValid | script.js:7-9 | the empty start state with counter 1 satisfies the invariant, ascending ids and trimmed texts |
| Store.GenerateId | script.js:65-67 | the id handed out is the old counter, and the counter ends one above it; the tasks are untouched; when the counter was above every id, the new id is not any present id and the counter stays above every id |
| Store.Add | script.js:38-60 | the state is unchanged exactly when the input is blank after trimming; otherwise one incomplete task is appended with the old counter as id and the trimmed text, earlier tasks are untouched, and the counter goes up by one |
| Store.Toggle | script.js:72-84 | the counter never changes; an unknown id changes nothing and never celebrates; a known id flips the flag of the first task with that id only, keeping length, order, ids and texts; a celebration implies every task is then completed |
| Store.Delete | script.js:90-97 | the counter never changes; an unknown id changes nothing; a known id removes exactly the first task with that id and keeps the others in their order; nothing is added |
| Store.CelebrateIffLastPending | script.js:72-84 | the celebration starts exactly when the toggled id is present, its first task was incomplete, and every other task was already completed |
| Store.UncompleteNeverCelebrates | script.js:81 | toggling a completed task makes it incomplete and never starts the celebration |
| Store.ToggleTwice | script.js:72-84 | toggling the same id twice restores the original state |
| Store.DeleteKeepsOthers | script.js:90-97 | every task with another id survives a delete |
| Store.DeleteAddsNoId | script.js:90-97 | every id after a delete was present before it |
| Store.DeleteRemovesExactlyId | script.js:90-97 | with distinct ids, an id is present after deleting `id` exactly when it was present before and is not `id` |
| Store.AddPreservesValid | script.js:46-53 | adding keeps ids distinct and below a counter of at least 1, and the counter does not decrease |
| Store.TogglePreservesValid | script.js:72-84 | toggling keeps ids distinct and below the counter |
| Store.DeletePreservesValid | script.js:90-97 | deleting keeps ids distinct and below the counter |
| Store.AddPreservesOrderAndText | script.js:41-53 | adding keeps ids ascending along the list and every text non-empty and trimmed |
| Store.TogglePreservesOrderAndText | script.js:72-84 | toggling keeps ids ascending and texts non-empty and trimmed |
| Store.DeletePreservesOrderAndText | script.js:90-97 | deleting keeps ids ascending and texts non-empty and trimmed |
| Storage.MaxId | script.js:126 | the result is at least 0, at least every id, and is either 0 or one of the ids |
| Storage.Load | script.js:117-134 | a missing slot, or one whose reading throws, gives the fresh state; otherwise the stored tasks (or none) are kept; the counter is at least 1, at least the stored counter (a missing or zero counter counts as 1), and above every loaded id, so the counter-above-ids part of the invariant holds; it is also the least such value: the stored counter, 1, or one more than some loaded id |
| Storage.LoadValid | script.js:122-127 | a load whose ids are distinct gives a state satisfying the invariant |
| Storage.Save | script.js:102-112 | the record carries both the tasks and the counter; loading it back restores any state whose counter is at least 1 and above every id, even with repeated ids |
| Storage.StoredCounter | script.js:123 | a missing or zero stored counter reads as 1; a present non-zero counter is taken as it is; the result is never 0 |
| Storage.ReloadIsStable | script.js:102-127 | saving a loaded state and loading it again gives the same state, even when the loaded ids repeat |
| Trace.RunPreservesValid | script.js:38-97 | any sequence of adds, toggles and deletes keeps the invariant |
| Trace.IssuedIdsIncrease | script.js:65-67 | over a run the counter grows by exactly the number of ids handed out; these ids are consecutive from the starting counter, hence strictly increasing |
| Trace.IssuedIdsAreNew | script.js:65-67 | when the counter starts at least 1 and above every id, an id handed out during a run is not the id of any task present at its start, even after that task was deleted |
| Trace.RunIdsComeFromIssued | script.js:46-53 | every id after a run was present at the start or was handed out during the run |
| Scenarios.BuyMilkSession | script.js:38-97 | from a fresh start, "Buy milk" gets id 1 and displays "0/1"; completing it displays "1/1" and celebrates; deleting it empties the list |
| Scenarios.BlankTextAddsNothing | script.js:41-44 | empty and blank-only text leave the state unchanged |
| Scenarios.TwoTaskCelebration | script.js:72-84 | with two tasks, completing the first does not celebrate; completing the second does; un-completing it does not |

## Left out

- Rendering is left out because it is browser DOM work. This covers `renderTasks`, `createTaskElement`, `toggleEmptyState`, `initializeElements` and `bindEvents`. Clearing and refocusing the entry field is left out for the same reason.
- `escapeHtml` is left out. Its result depends on the browser's HTML serialisation, which is not visible in the code.
- Reading and writing `localStorage`, and `JSON.stringify`/`JSON.parse`, are left out because they are I/O and foreign calls. A load starts from the already parsed record, or from a note that the slot was empty or that reading it throws. Reading throws when the text does not parse or parses to `null`, when `tasks` is truthy but not an array, when a task entry is `null`, or when there are more tasks than `Math.max` accepts as spread arguments. In all these cases the application falls back to the fresh state, and the model's `Corrupt` slot stands for them. A failed save is only logged in the application, so it does not change the state.
- `celebrate` and `createConfetti` are left out. They are visual, random and timer-driven. Only whether the celebration starts is modelled.
- `createdAt` is left out because it is a wall-clock reading that the store never uses.
- The global Ctrl/Cmd + `/` focus shortcut is left out because it is browser UI.
- Storage.Load: a stored record whose ids or counter are not numbers (strings, `NaN`, fractions) is not modelled. With such data the JavaScript comparison and `Math.max` produce values the store otherwise never holds.
- Storage.Load: ids and counters at or above 2^53 are not modelled. JavaScript numbers are doubles, so there `maxId + 1` can equal `maxId` and the counter is not above every loaded id. The model's integers keep growing exactly.
- Store.Add: counters at or above 2^53 are not modelled. There `taskIdCounter++` stops changing the double, so the application hands out the same id twice. The model's counter keeps growing by one.
- Store.GenerateId: as for Store.Add, the increment is exact only below 2^53.
- Store.AddPreservesValid: distinct ids after an add hold only while the counter stays below 2^53, for the reason given for Store.Add.
- Trace.RunPreservesValid: distinct ids across a run hold only while the counter stays below 2^53, for the reason given for Store.Add.
- Storage.LoadValid: the loaded counter is above every loaded id only when ids and counter are below 2^53, for the reason given for Storage.Load.
- Trace.IssuedIdsIncrease: ids handed out are strictly increasing only while the counter stays below 2^53.
- Trace.IssuedIdsAreNew: ids handed out are new only while the counter stays below 2^53.
- Task texts: a Dafny string holds Unicode scalar values, so it cannot represent the lone UTF-16 surrogates an entry field can hold. These never affect `trim`.
- Text.Decimal: a count of 10^21 or more, which JavaScript would print in exponent notation, is not modelled. A task list never gets that long.

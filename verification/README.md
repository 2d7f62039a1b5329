# Task list state engine — a Dafny model

This project models the logic core of a small React task-list application:

- the **task reducer** (`taskReducer`), a total function from a list of tasks
  and an action to the next list, with an add, a toggle, an edit and a delete
  branch and a no-op default;
- the **validator** (`validateTask`) with its constants: trim the text, then
  reject it as blank, too short (< 3), too long (> 100) or containing a
  character outside the accepted class, in that order;
- the **dispatch wrappers, filtered views and tab counters**, which exist twice:
  in the `useTasks` hook (using the action-type constants) and in the
  `TaskApp` component (using string literals);
- the **`TodoInput` edit buffer**, a two-field state machine `(value, error)`
  driven by change and submit events.

State is explicit: every hook or component function takes the task list as an
argument. The random id of a new task (`crypto.randomUUID()`) is a parameter
`newId` of `TaskReducer.Reduce`; nothing in the code guarantees it is fresh,
so freshness appears only as a precondition (`TaskReducer.AddKeepsIdsUnique`).

A `char` stands for one UTF-16 code unit, so `|s|` is JavaScript's `.length`.
`JsString.IsWhiteSpace` is ECMAScript's WhiteSpace plus LineTerminator set,
which both `String.prototype.trim` and the regular-expression class `\s` use.
The accepted-character class is the membership predicate
`Validation.InPatternClass`: ASCII letters and digits, white space,
U+00C0–U+017F, `. , ! ?`, and the literal characters of the class as stored
in the file — twelve Hangul syllables (U+CC3C, U+CC55, U+CC60, U+CC98,
U+CCAC, U+D681, U+D68B, U+D692, U+D699, U+D6A3, U+CC70, U+D697; evidently
mis-decoded accented vowels, which the U+00C0–U+017F range already admits)
and the trailing `-`.

Modules follow the source files: `Tasks` (the record types), `JsString`
(white space and trim), `Validation` (constants), `TaskValidation`,
`TaskActions`, `TaskReducer`, `UseTasks`, `TaskApp`, `TodoInput`, `MockData`;
`Seqs` holds the generic order-preserving filter, counting and the
subsequence relation, and `Wrappers` the `Option` type used for `T | null`.

What the code does that a reader might not expect (the model follows the code):

- Delete never happens through either caller. The reducer matches
  `"DELETE-TASK"` (hyphen); the `DELETE_TASK` constant and `TaskApp`'s literal
  are `"DELETE_TASK"` (underscore), so a delete reaches the default branch and
  returns the list unchanged (`UseTasks.DeleteTaskIsNoOp`,
  `TaskApp.DeleteTaskIsNoOp`). The reducer's own delete branch is modelled and
  proved correct (`TaskReducer.DeleteCharacterization`).
- The hook's `addTask` stores the description untrimmed; only `TaskApp`'s
  `addTask` and the `TodoInput` submit trim it.
- The reducer itself validates nothing and does not make ids fresh.
- The accepted class also admits `-`, every character in U+00C0–U+017F and the
  twelve Hangul syllables above, not only letters, digits, white space and
  `. , ! ?`.
- The seed list contains texts the validator rejects
  (`MockData.SeedFailsValidation`).

## Model

| member | source | states |
|---|---|---|
| JsString.Trim | src/utils/taskValidation.ts:12 | the trimmed text has no white space at either end and is the input with only white space removed before and after it |
| JsString.TrimEmpty | src/utils/taskValidation.ts:14 | the trimmed text is empty exactly when the input is all white space, and is never longer than the input |
| JsString.TrimOfDecomposition | src/utils/taskValidation.ts:12 | for white space `a`, `b` and a text `m` with non-blank ends, trimming `a + m + b` gives `m` |
| JsString.TrimIgnoresPadding | src/utils/taskValidation.ts:12 | adding white space before and after a text does not change its trimmed form |
| JsString.TrimIdempotent | src/utils/taskValidation.ts:12 | trimming twice is trimming once |
| JsString.IsWhiteSpace | src/utils/taskValidation.ts:12 | the ECMAScript WhiteSpace and LineTerminator characters that `trim()` strips and that `\s` in the pattern accepts |
| Validation.InPatternClass | src/constants/validation.ts:4 | membership in the pattern's class: ASCII letters and digits, white space, U+00C0–U+017F, `. , ! ?`, the twelve literal Hangul characters and `-` |
| Validation.MatchesPattern | src/utils/taskValidation.ts:26 | `PATTERN.test`: the text is non-empty and every character is in the class |
| Validation.LengthBoundsOrdered | src/constants/validation.ts:2-3 | `MIN_LENGTH` is 3, `MAX_LENGTH` is 100, and the minimum is below the maximum |
| Validation.MessagesDistinct | src/constants/validation.ts:5-11 | the five error messages are pairwise different texts |
| Validation.PatternClassMembers | src/constants/validation.ts:4 | accented Spanish letters, `-`, NBSP and each of the twelve literal Hangul characters are accepted; `@ # ( "`, `_`, U+00BF and U+0180 are not; the anchored pattern rejects the empty text |
| Validation.MatchesPatternConcat | src/constants/validation.ts:4 | the anchored pattern matches a concatenation of two non-empty texts exactly when it matches both |
| TaskValidation.ValidateTask | src/utils/taskValidation.ts:11-31 | blank input (all white space) gives ONLY_SPACES; trimmed length 1–2 gives MIN_LENGTH; above 100 gives MAX_LENGTH; 3–100 with a character outside the class gives INVALID_CHARS; the result is null exactly when the trimmed length is 3–100 and every character is accepted; EMPTY is never returned |
| TaskValidation.ValidateIgnoresPadding | src/utils/taskValidation.ts:12 | leading and trailing white space never change the verdict |
| TaskValidation.ValidateTrimmed | src/utils/taskValidation.ts:12 | validating the trimmed text gives the verdict of the raw text |
| TaskValidation.ValidMeansMatch | src/utils/taskValidation.ts:26-30 | a valid text trims to a pattern match of 3 to 100 characters |
| TaskValidation.LengthBeforePattern | src/utils/taskValidation.ts:22-28 | a trimmed text over 100 characters gets MAX_LENGTH whatever characters it contains |
| TaskValidation.ValidateBlankExamples | src/utils/taskValidation.ts:14-16 | `""` and `"   "` give ONLY_SPACES |
| TaskValidation.ValidateShortExample | src/utils/taskValidation.ts:18-20 | `"ab"` gives MIN_LENGTH |
| TaskValidation.ValidateTooLongExample | src/utils/taskValidation.ts:22-24 | 101 letters give MAX_LENGTH |
| TaskValidation.ValidateAcceptedExample | src/utils/taskValidation.ts:30 | `"hello!!"` is valid |
| TaskValidation.ValidateRejectedExample | src/utils/taskValidation.ts:26-28 | `"hi@#"` gives INVALID_CHARS |
| TaskActions.TagsDistinct | src/constants/taskActions.ts:2-5 | the four action-type constants are pairwise distinct |
| TaskReducer.ToggleById | src/reducer/taskReducer.ts:21-30 | same length, every id and description kept, and the completion flag changes exactly on the tasks whose id is the payload |
| TaskReducer.EditById | src/reducer/taskReducer.ts:32-41 | same length, every id and flag kept, matching tasks get the new description, all other tasks are identical |
| TaskReducer.DeleteById | src/reducer/taskReducer.ts:43-44 | the result is a subsequence of the list, no remaining task has the id, and every task with another id remains |
| TaskReducer.Reduce | src/reducer/taskReducer.ts:9-49 | an unhandled tag returns the list unchanged; add grows the list by one; every other action never grows it |
| TaskReducer.ReduceAdd | src/reducer/taskReducer.ts:11-19 | add keeps the list as a prefix and appends one task with the given id, the payload as description (untouched) and `isCompleted` false |
| TaskReducer.AddKeepsIdsUnique | src/reducer/taskReducer.ts:11-19 | if the ids are unique and the new id is fresh, the ids stay unique after add |
| TaskReducer.ToggleInvolution | src/reducer/taskReducer.ts:21-30 | toggling the same id twice returns the original list |
| TaskReducer.ToggleFlipsExactlyOne | src/reducer/taskReducer.ts:21-30 | with unique ids, toggling the id of task `k` flips task `k` and leaves every other task identical |
| TaskReducer.MapsKeepIdsUnique | src/reducer/taskReducer.ts:21-41 | toggle and edit keep unique ids unique |
| TaskReducer.DeleteKeepsIdsUnique | src/reducer/taskReducer.ts:43-44 | delete keeps unique ids unique |
| TaskReducer.DeleteCharacterization | src/reducer/taskReducer.ts:43-44 | a list is the delete result exactly when it is a subsequence of the input made of tasks with another id and as long as the number of such tasks (order preserved) |
| TaskReducer.AbsentIdIsNoOp | src/reducer/taskReducer.ts:21-44 | with an id no task carries, toggle, edit and delete each return the input |
| UseTasks.AddTask | src/hooks/useTasks.ts:24-31 | an add is dispatched exactly when the text is not all white space, and it carries the text untrimmed under the reducer's add tag |
| UseTasks.CompletedTask | src/hooks/useTasks.ts:33-38 | dispatches the reducer's toggle tag with the id |
| UseTasks.DeleteTask | src/hooks/useTasks.ts:40-42 | dispatches a tag the reducer does not handle |
| UseTasks.EditTask | src/hooks/useTasks.ts:44-46 | dispatches the reducer's edit tag with the id and new description |
| UseTasks.GetFilteredTasks | src/hooks/useTasks.ts:48-59 | "completed" and "pending" give order-preserving subsequences of the tasks of that status, as many as there are; any other filter gives the whole list |
| UseTasks.GetTaskCounts | src/hooks/useTasks.ts:61-67 | `all` is the list length, `completed` the number of completed tasks, and `completed + pending == all` |
| UseTasks.ConstantsAgainstReducer | src/constants/taskActions.ts:2-5 | the add, toggle and edit constants equal the reducer's tags; the delete constant differs from the reducer's `"DELETE-TASK"` |
| UseTasks.AddTaskEndToEnd | src/hooks/useTasks.ts:24-31 | adding through the hook appends a pending task with the untrimmed text when it is not blank and otherwise leaves the list unchanged |
| UseTasks.DeleteTaskIsNoOp | src/hooks/useTasks.ts:40-42 | deleting through the hook leaves the list unchanged |
| UseTasks.ToggleAndEditEndToEnd | src/hooks/useTasks.ts:33-46 | toggling and editing through the hook are the reducer's toggle and edit on that id; toggling back restores the list |
| UseTasks.ViewLengthsMatchCounts | src/hooks/useTasks.ts:48-67 | each view is as long as the counter of its tab |
| UseTasks.ViewsAreTheFilters | src/hooks/useTasks.ts:52-55 | a list is the completed (pending) view exactly when it is a full-length order-preserving subsequence of the completed (pending) tasks |
| UseTasks.BuyMilkScenario | src/hooks/useTasks.ts:24-67 | adding "Buy milk" to an empty list and toggling it gives one completed task, an empty pending view, a completed view with that task and counters 1/1/0 |
| TaskApp.AddTask | src/TaskApp.tsx:18-29 | an add is dispatched exactly when the text is not all white space, and it carries the trimmed, non-empty text |
| TaskApp.CompletedTask | src/TaskApp.tsx:31-36 | dispatches the reducer's toggle tag with the id |
| TaskApp.DeleteTask | src/TaskApp.tsx:38-40 | dispatches a tag the reducer does not handle |
| TaskApp.EditTask | src/TaskApp.tsx:42-44 | dispatches the reducer's edit tag with the id and new description |
| TaskApp.GetFilteredTasks | src/TaskApp.tsx:46-57 | coincides with the hook's view; a subsequence of the list whose tasks all have the selected status |
| TaskApp.GetTaskCounts | src/TaskApp.tsx:61-67 | coincides with the hook's counters; `all` is the length and `completed + pending == all` |
| TaskApp.AddTaskEndToEnd | src/TaskApp.tsx:18-29 | adding from the component appends a pending task with the trimmed text, or nothing when the text is blank |
| TaskApp.AddIgnoresPadding | src/TaskApp.tsx:19 | white space around the input never reaches the dispatched action |
| TaskApp.DeleteTaskIsNoOp | src/TaskApp.tsx:38-40 | deleting from the component leaves the list unchanged |
| TodoInput.HandleChange | src/components/TodoInput/TodoInput.tsx:27-34 | a text of at most 100 characters becomes the value and clears the error; a longer one changes nothing; the length cap is preserved |
| TodoInput.HandleSubmit | src/components/TodoInput/TodoInput.tsx:14-25 | an invalid value shows its message, keeps the value and adds nothing; a valid one adds the trimmed value and resets the buffer; anything added is trimmed, 3–100 characters long, matches the pattern and is itself valid |
| TodoInput.Run | src/components/TodoInput/TodoInput.tsx:11-34 | every state reachable from the empty buffer holds at most 100 characters |
| TodoInput.RemainingChars | src/components/TodoInput/TodoInput.tsx:42 | remaining plus value length is 100; it is non-negative exactly within the cap |
| TodoInput.IsNearLimit | src/components/TodoInput/TodoInput.tsx:43 | the counter shows from 80 characters on |
| TodoInput.AddDisabled | src/components/TodoInput/TodoInput.tsx:66 | the button is disabled exactly below 3 raw characters, and then the value always fails validation (ONLY_SPACES or MIN_LENGTH) |
| TodoInput.RemainingNeverNegative | src/components/TodoInput/TodoInput.tsx:42 | in every reachable state the remaining count is non-negative |
| TodoInput.SubmitNeverTooLong | src/components/TodoInput/TodoInput.tsx:14-20 | in every reachable state a submit never shows the MAX_LENGTH message |
| TodoInput.SubmitThenAdd | src/components/TodoInput/TodoInput.tsx:22 | a submitted text is already trimmed and valid; if `TaskApp`'s add (its `onAddTask`) read that text, it would be appended unchanged (in the source it reads a ref that is never attached and adds nothing) |
| MockData.Seed | src/mock-data/mock-data.ts:3-49 | nine tasks with the given ids, all pending |
| MockData.SeedCounts | src/mock-data/mock-data.ts:3-49 | the seed's counters are 9 / 0 / 9 |
| MockData.SeedFailsValidation | src/mock-data/mock-data.ts:26 | the seed text with parentheses is rejected as INVALID_CHARS |

## Left out

- Storage: `useLocalStorage` (reading and writing `localStorage`, JSON encoding, error logging) is I/O; the seed list is used as a value only.
- React plumbing: `useReducer`, `useMemo`, `useState`, the effect that saves the state, and re-render timing. State is an explicit argument.
- Random ids: `crypto.randomUUID()` is a parameter; uniqueness is never claimed beyond the stated precondition of `TaskReducer.AddKeepsIdsUnique`.
- TodoInput.SubmitThenAdd: states what would happen if `TaskApp`'s `addTask` received the submitted text; in the source it takes no argument and reads `inputRef`, which `TodoInput` never attaches (src/TaskApp.tsx:18-19, src/components/TodoInput/TodoInput.tsx:6-10, 48-57), so a valid submit adds nothing.
- `TaskApp.AddTask`: reads the text through a ref (`inputRef`) that it hands to `TodoInput`, which does not attach it; the model takes the input text as an argument, so it does not show that in the assembled app the ref is empty and nothing is added, and it drops the clearing of `inputRef.current.value` after an add (src/TaskApp.tsx:25-27) together with the ref.
- `TaskReducer.Reduce`: requires the payload shape the declared action union gives each handled tag (a string for add, toggle and delete, the edit record for edit); mismatched shapes, such as an object as the description of an add, are not modelled.
- The filter type file is not part of this model; the filter is a string, so the `default` branch of the view switch is modelled.
- Rendering components (`TodoItem`, `EditModal`, `TodoList`, `TabsList`, `TaskInput`), CSS and the class-name helper carry no logic beyond event wiring. The Enter key and the Add button both produce the `Submit` event of `TodoInput`.
- TaskValidation.ValidateTask, TodoInput.HandleChange, TodoInput.RemainingChars, TodoInput.IsNearLimit, TodoInput.AddDisabled: count a character outside the Basic Multilingual Plane as one `char`, where JavaScript's `.length` counts two UTF-16 code units and the pattern sees two surrogates outside the class; so `"a\U{1F600}"` gets MIN_LENGTH here while the source returns INVALID_CHARS. Lone surrogates cannot be represented at all. Likewise the buffer accepts 60 such characters, whose `.length` is 120 and which `handleChange` refuses (src/components/TodoInput/TodoInput.tsx:30), and the counter and the near-limit and disabled flags count them once; the length-cap invariants still hold for the source, since 100 code units or fewer means 100 characters or fewer.
- The pattern is a per-character membership test, not a regular-expression engine.

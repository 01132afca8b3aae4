# Team task tracker — a Dafny model of its record keeping

The tracker is a single browser script (`teamtasker.js`) that keeps two
collections, team members and tasks, in memory and in local storage. This
project models what that script does to the collections once the DOM and the
storage calls are stripped away. It covers the id allocator (`generateId`), the
add-task and add-member forms (trim, then a non-empty check, then append with a
fresh id), the toggle, checkbox, delete and clear-completed actions, the
assignee filter and the assignee-name lookup of `renderTasks`, `escapeHtml`, and
the fallback to seed data in `loadData`.

Modules, one per concern of the script:

- `Wrappers`: `Option`, which stands in for `undefined` and `null`.
- `Seqs`: `Array.prototype.filter` as `Filter`. Delete, clear-completed and the
  assignee filter are all built on it.
- `Ids`: `generateId`.
- `Text`: ECMAScript `trim` with its full white-space set, and `escapeHtml`.
  The escape is also written as the source's chain of three global
  replacements (`ChainedReplace`), and it has an inverse (`Unescape`).
- `Records`: the `Member` and `Task` records, the seed data, and the
  unique-id and assignee predicates.
- `Tracker`: the state (both collections) and every user action, as pure
  functions from state to state. A form submission returns the new state and
  the alert, if any.
- `Storage`: `loadData`, with the JSON parser as a parameter.
- `View`: the rows `renderTasks` draws, without the markup.

Ids are mathematical integers. The filter selector's value is `All` or
`AssignedTo(id)`. A toggle or checkbox acts on a row index, because the source's
handlers act on the task object they captured, not on its id. A delete acts on
an id.

Deleting a task removes every task whose id equals the clicked task's id, not
only the clicked task, and `DeleteTask` does the same. `Tracker.DeleteTaskRemovesOne`
proves that exactly one row goes when ids are unique.

## Model

| member | source | states |
|---|---|---|
| Ids.Max | teamtasker.js:56 | `Math.max` over the ids returns one of them, and no id is larger |
| Ids.Generate | teamtasker.js:54-57 | 1 for an empty collection; otherwise strictly above every existing id (so never a collision), and one more than an id in use |
| Records.TaskIds | teamtasker.js:56 | `tasks.map(i => i.id)`: one id per task, position by position |
| Records.MemberIds | teamtasker.js:56 | `teamMembers.map(i => i.id)`: one id per member, position by position |
| Ids.GenerateIsLeastFresh | teamtasker.js:56 | for a non-empty collection, no value smaller than the generated id is above every existing id |
| Seqs.Filter | teamtasker.js:106 | `filter` keeps exactly the elements satisfying the predicate: every survivor satisfies it and came from the input, and every input element satisfying it survives |
| Seqs.FilterIsSubsequence | teamtasker.js:106 | the survivors of a filter keep their original relative order |
| Seqs.FilterMultiplicity | teamtasker.js:106 | a filter keeps every copy of an element satisfying the predicate and no copy of one that does not |
| Seqs.FilterKeepsAll | teamtasker.js:106 | a filter returns its input unchanged if and only if every element satisfies the predicate |
| Seqs.FilterIdempotent | teamtasker.js:194 | filtering twice by the same predicate equals filtering once |
| Text.IsWhiteSpace | teamtasker.js:176-178 | the characters `trim` removes: ECMAScript's WhiteSpace (tab, vertical tab, form feed, space, no-break space, byte order mark, Unicode space separators) and LineTerminator (LF, CR, U+2028, U+2029) |
| Text.ContentStart | teamtasker.js:164 | the position after the leading white space: everything before it is white space, and the character there is not |
| Text.ContentEnd | teamtasker.js:164 | the position where the trailing white space begins: everything from it on is white space, and the character just before it is not |
| Text.Trim | teamtasker.js:176-178 | `trim` returns a slice of the input with only white space outside it, and it neither starts nor ends with white space |
| Text.TrimEmpty | teamtasker.js:166 | a trimmed field is empty exactly when the raw field is all white space, which is when the form refuses it |
| Text.TrimIdempotent | teamtasker.js:164 | trimming a stored (already trimmed) text again changes nothing |
| Text.EscapeHtml | teamtasker.js:157-159 | the output contains no `<` and no `>`, and a string without `&`, `<` or `>` passes through unchanged |
| Text.ReplaceAll | teamtasker.js:158 | a global replace of a character that does not occur changes nothing |
| Text.ChainedReplace | teamtasker.js:158 | the escaper as written: global replacement of `&`, then `<`, then `>` |
| Text.ChainedReplaceIsEscape | teamtasker.js:158 | the chain of three global replacements (`&` first) equals replacing each character by its entity |
| Text.UnescapeEscape | teamtasker.js:158 | decoding the three entities recovers the original text exactly |
| Text.EscapeInjective | teamtasker.js:158 | two different texts never render as the same escaped text |
| Records.DefaultsWellFormed | teamtasker.js:7-17 | the seed data has unique ids and every seed task's assignee is a seed member; the next task and the next member both get id 4 |
| Tracker.FindMember | teamtasker.js:59-61 | `find` gives nothing exactly when no member has the id, and otherwise the first member carrying it |
| Tracker.AssigneeName | teamtasker.js:117-118 | the name shown is that of the first member with the task's `assignedTo` id, or "Unassigned" when no member has it |
| Tracker.AssigneeNameOfUniqueMember | teamtasker.js:117-118 | with unique member ids, a task assigned to member `i` shows member `i`'s name |
| Tracker.TasksShown | teamtasker.js:104-107 | `'all'` shows the whole list unchanged; a member id shows exactly the tasks assigned to that member |
| Tracker.TasksShownExactly | teamtasker.js:104-107 | filtering by a member keeps every copy of that member's tasks, no other task, in the original order |
| Tracker.SetCompleted | teamtasker.js:131-132 | the checkbox sets the flag of its own task only; every other field and every other task is unchanged |
| Tracker.Toggle | teamtasker.js:138-139 | the toggle flips the flag of its own task; id, description and assignee stay, other tasks are unchanged |
| Tracker.ToggleTwice | teamtasker.js:139 | toggling the same task twice restores the state |
| Tracker.ToggleKeepsValid | teamtasker.js:139 | toggling keeps ids unique and keeps every assignee a member |
| Tracker.DeleteTask | teamtasker.js:147 | no task with the deleted id remains, every task with a different id remains, and nothing new appears; members are unchanged |
| Tracker.DeleteTaskKeepsOrder | teamtasker.js:147 | the remaining tasks keep their relative order |
| Tracker.DeleteTaskExactly | teamtasker.js:147 | deleting keeps every copy of each task with another id and no copy of a task with the deleted id |
| Tracker.DeleteTaskRemovesOne | teamtasker.js:147 | with unique ids, deleting row `k`'s id removes row `k` and no other row |
| Tracker.DeleteTaskKeepsValid | teamtasker.js:147 | deleting keeps ids unique and keeps every assignee a member |
| Tracker.ClearCompleted | teamtasker.js:194 | every remaining task is open, and every open task remains; members are unchanged |
| Tracker.ClearCompletedExactly | teamtasker.js:194 | clearing keeps every copy of each open task and nothing else, in the original order |
| Tracker.ClearCompletedIdempotent | teamtasker.js:194 | clearing twice equals clearing once |
| Tracker.ClearCompletedKeepsValid | teamtasker.js:194 | clearing keeps ids unique and keeps every assignee a member |
| Tracker.AddTask | teamtasker.js:164-168 | refused with "Please enter a task description", state unchanged, exactly when the trimmed description is empty; otherwise exactly one task is appended with id `generateId(tasks)` (so above every existing id), the trimmed text, the chosen assignee and not completed, and existing tasks and members are unchanged |
| Tracker.AddMember | teamtasker.js:176-181 | refused with "Please fill all member fields", state unchanged, exactly when a trimmed field is empty; otherwise exactly one member is appended with id `generateId(teamMembers)` (so above every existing id) and the trimmed fields, and the rest is unchanged |
| Tracker.AddTaskKeepsValid | teamtasker.js:166-168 | adding a task keeps ids unique, and keeps every assignee a member when the chosen assignee is one |
| Tracker.AddMemberKeepsValid | teamtasker.js:179-181 | adding a member keeps ids unique and keeps every existing assignee a member |
| Tracker.DeleteUndoesAddTask | teamtasker.js:167-168 | deleting the id of a task just added gives back exactly the tasks from before the add |
| Tracker.ClearCompletedKeepsNewTask | teamtasker.js:167 | a task just added is open, so clear-completed keeps it at the end of the cleared list |
| Storage.LoadCollection | teamtasker.js:38-51 | a missing or empty stored text, or one the parser rejects, yields the seed; otherwise the parsed value |
| Storage.Load | teamtasker.js:38-51 | with nothing stored, the state is the seed team and the seed tasks |
| Storage.FirstLoadIsValid | teamtasker.js:42-47 | a first visit starts with unique ids and every assignee a member |
| Storage.LoadKeysIndependent | teamtasker.js:41-50 | the tasks loaded do not depend on what is stored under the team key |
| Storage.LoadAfterSave | teamtasker.js:33-51 | when the parser inverts the serializer and the written text is not empty, loading what was saved gives back the saved state |
| View.RenderRow | teamtasker.js:117-122 | a row shows its task's id and completion flag, and its texts contain no `<` or `>` |
| View.RenderTasks | teamtasker.js:102-122 | the placeholder "No tasks to show" appears exactly when no task passes the filter; otherwise one row per shown task, in order, with matching id and flag and no markup characters in the texts |
| View.RowsReadBack | teamtasker.js:122 | each row's escaped texts decode back to the task's description and its assignee's name |
| View.AllShowsEveryTask | teamtasker.js:104 | with the `'all'` filter every stored task gets a row, in stored order |

## Left out

- DOM construction and rendering (`innerHTML`, `createElement`, the team cards, `populateAssigneeOptions`, `populateFilterOptions`, the CSS class strings): this is UI glue. Lines 90 and 98 are also not valid JavaScript as written, because their template literals have no backticks.
- Event-listener registration, `preventDefault` and `form.reset()`: each handler is modelled as the state change it makes.
- `confirm` dialogs (lines 146 and 193): a delete or clear is modelled as the confirmed action; a cancelled one changes nothing. `alert` is modelled by the alert text in `Tracker.Submission`.
- `localStorage` and `JSON.stringify`/`JSON.parse`: these are browser APIs. `saveData` after each mutation is implicit, because every operation returns the whole new state. The parser is a parameter of `Storage.Load`. A text that parses to something other than an array (`"null"`, `"{}"`) is not modelled: the parameter returns typed collections.
- `Storage.Load`: its own contract covers only the first-visit case. The other cases follow from `Storage.LoadCollection`, one per key.
- `Number(...)` coercion of select values and JavaScript number semantics: ids are unbounded integers, and `NaN` ids are not modelled. The assignee is a plain integer parameter. An empty assignee select gives `Number('') = 0`, which is such an integer.
- The truthiness test in `renderTasks` (line 105): a falsy filter argument, such as member id 0 passed by a team-card click, shows all tasks. The model's filter is `All | AssignedTo(id)`, and ids allocated by `generateId` are never 0 when starting from the seed data.
- `Math.max(...)` over a spread argument throws for very large arrays, because of the engine's argument limit. The model has no such limit.
- `String(str)` in `escapeHtml`: the model's argument is already a string.
- JavaScript strings are sequences of UTF-16 code units, and a lone surrogate read from stored JSON has no Dafny `char`. Such strings are not modelled. This does not affect `trim` or `escapeHtml`, because none of the characters they act on is a surrogate.
- Regex machinery: `escapeHtml` is a per-character map. `Text.ChainedReplaceIsEscape` connects it to the source's three chained `replace` calls.

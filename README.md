# Daily task dashboard: the Kanban board's state logic in Dafny

This project models the state logic of the `KanbanBoard` component of the daily
task dashboard (`src/components/kanban/kanban-board.tsx`). Stripped of React and
the browser, the component holds a board of three ordered task lists
(`todo`, `inProgress`, `done`) and replaces it wholesale on each user command:

- **add** (`addTask`): input that `trim()`s to the empty string is ignored;
  otherwise a task with a fresh id and the *untrimmed* text is appended to `todo`.
- **remove** (`removeTask`): every task with the given id is filtered out of one column.
- **move** (the `setTasks` updater inside `handleDrop`): nothing happens when source
  and target columns coincide or no task of the source carries the id; otherwise
  all tasks with that id leave the source and the first of them is appended to
  the target.
- **clear** (`clearAllTasks`): once confirmed, all three columns become empty.
- **statistics** (`stats` in `Statistics`): counts per column, the total, and the
  completion percentage, 0 for an empty board.

Layout:

- `wrappers.dfy` — `Option`.
- `js_string.dfy` — module `JsString`: ECMAScript `trim` (its WhiteSpace and
  LineTerminator code points) and the fact that the trimmed string is empty
  exactly when the input is white space only.
- `task_lists.dfy` — module `TaskLists`: `Task`, and the array operations the
  board uses on one column: `filter` by id (`WithoutId`), `find` by id (`Find`),
  the id set, distinctness, counting.
- `board.dfy` — module `Kanban`: `Status`, `Board`, `DragData`, the transitions
  `Add`, `Remove`, `Move`, `Drop`, `Clear` as pure functions, the board invariant
  `UniqueIds` (no task id twice on the board) and the lemmas that the transitions
  keep it.
- `statistics.dfy` — module `Statistics`: the `stats` record and the rounding of
  the completion rate.
- `kanban_component.dfy` — module `KanbanComponent`: class `KanbanBoard` with the
  component's two state variables (`tasks`, `newTask`); each handler is a method
  that replaces `tasks` by the matching transition, as `setTasks` does.

Behaviours of the code worth noting:

- `removeTask` removes *every* task with the id, not a single one (line 212).
- Clearing is gated by a confirmation dialog (line 58); the answer is a parameter.
- After a white-space-only submission `addTask` returns before `setNewTask('')`,
  so the input keeps its text (lines 197, 206).
- Loading the saved board (line 37) has no `try`/`catch`, so no fallback to an
  empty board on a malformed snapshot is modelled.

## Model

| member | source | states |
|---|---|---|
| `JsString.TrimStart` | src/components/kanban/kanban-board.tsx:197 | the result is the suffix of the input left after dropping its white-space prefix, and does not start with white space |
| `JsString.TrimEnd` | src/components/kanban/kanban-board.tsx:197 | the result is the prefix of the input left after dropping its white-space suffix, and does not end with white space |
| `JsString.TrimEmptyIff` | src/components/kanban/kanban-board.tsx:197 | `trim()` yields the empty string exactly when every character of the input is white space |
| `TaskLists.WithoutId` | src/components/kanban/kanban-board.tsx:135 | `filter(t => t.id !== id)` keeps exactly the tasks whose id differs, and its length is the old length minus the number of tasks carrying the id |
| `TaskLists.WithoutIdSingle` | src/components/kanban/kanban-board.tsx:135 | on a one-task list the filter keeps the task exactly when its id differs |
| `TaskLists.WithoutIdConcat` | src/components/kanban/kanban-board.tsx:135 | the filter of a concatenation is the concatenation of the filters, so kept tasks stay in their order and multiplicity |
| `TaskLists.Find` | src/components/kanban/kanban-board.tsx:130 | `find` returns nothing exactly when no task carries the id, otherwise a task of the list carrying it |
| `TaskLists.FindFirst` | src/components/kanban/kanban-board.tsx:130 | `find` returns the task at the first index whose id matches |
| `TaskLists.FindUnique` | src/components/kanban/kanban-board.tsx:130 | with distinct ids, `find` returns the one task carrying the id |
| `TaskLists.WithoutIdIds` | src/components/kanban/kanban-board.tsx:212 | the ids left after the filter are the old ids without the filtered one |
| `TaskLists.WithoutAbsentId` | src/components/kanban/kanban-board.tsx:212 | filtering out an id no task carries returns the same list |
| `TaskLists.WithoutIdDistinct` | src/components/kanban/kanban-board.tsx:135 | the filter keeps ids distinct |
| `TaskLists.DistinctConcat` | src/components/kanban/kanban-board.tsx:15-19 | two lists joined have distinct ids exactly when each has and they share none |
| `Kanban.Board.With` | src/components/kanban/kanban-board.tsx:133-136 | `{...prev, [status]: l}` sets the named column to `l` and leaves the other two columns as they were |
| `Kanban.Add` | src/components/kanban/kanban-board.tsx:196-207 | white-space-only input leaves the board unchanged; other input appends exactly `{freshId, input}` (untrimmed) to `todo` and leaves `inProgress` and `done` unchanged |
| `Kanban.Remove` | src/components/kanban/kanban-board.tsx:209-213 | the named column becomes its `filter` by id (the tasks with a different id, in order), the other columns are unchanged, and without a matching task the board is unchanged |
| `Kanban.Move` | src/components/kanban/kanban-board.tsx:127-138 | same column or no matching task in the source: board unchanged; otherwise the source loses every task with the id, the target keeps its tasks in order and gains one task of the source with that id at its end, and the third column is unchanged |
| `Kanban.Drop` | src/components/kanban/kanban-board.tsx:123-141 | a payload that failed to parse, or one naming the target column, leaves the board unchanged; otherwise the drop is the move from the payload's column |
| `Kanban.Clear` | src/components/kanban/kanban-board.tsx:57-66 | when confirmed every column is empty, otherwise the board is unchanged |
| `Kanban.UniqueIdsIff` | src/components/kanban/kanban-board.tsx:15-19 | no id twice on the board is the same as no id twice within a column and no id shared by two columns |
| `Kanban.ColumnsUniqueGet` | src/components/kanban/kanban-board.tsx:15-19 | the column-wise invariant holds exactly when it holds for every column and pair of columns addressed by status |
| `Kanban.UniqueIdsOneColumn` | src/components/kanban/kanban-board.tsx:15-19 | under the invariant an id occurs in at most one column |
| `Kanban.AddKeepsUniqueIds` | src/components/kanban/kanban-board.tsx:198-205 | adding a task whose id is not yet on the board keeps every id unique |
| `Kanban.RemoveKeepsUniqueIds` | src/components/kanban/kanban-board.tsx:210-213 | removing keeps every id unique |
| `Kanban.MoveColumnIds` | src/components/kanban/kanban-board.tsx:133-137 | after a move the source holds its old ids minus the moved one and the target its old ids plus the moved one |
| `Kanban.MoveKeepsUniqueIds` | src/components/kanban/kanban-board.tsx:133-137 | moving keeps every id unique |
| `Kanban.DropKeepsUniqueIds` | src/components/kanban/kanban-board.tsx:123-141 | a drop keeps every id unique |
| `Kanban.MoveAppendsFirstMatch` | src/components/kanban/kanban-board.tsx:130-136 | the task appended to the target is the first task of the source whose id matches |
| `Kanban.MoveSize` | src/components/kanban/kanban-board.tsx:133-137 | a move shrinks the board by the number of tasks carrying the id, less the one it appends |
| `Kanban.MovePreservesSize` | src/components/kanban/kanban-board.tsx:133-137 | when ids in the source column are distinct, a move keeps the number of tasks |
| `Kanban.MoveLosesDuplicates` | src/components/kanban/kanban-board.tsx:135-136 | when two tasks of the source share the id, a move loses a task |
| `Kanban.MoveKeepsIds` | src/components/kanban/kanban-board.tsx:133-137 | a move never changes the set of ids on the board |
| `Kanban.RemoveIdempotent` | src/components/kanban/kanban-board.tsx:209-213 | removing the same id twice from a column is removing it once |
| `Kanban.RemoveSize` | src/components/kanban/kanban-board.tsx:212 | a removal shrinks the board by exactly the number of tasks of the column carrying the id |
| `Statistics.RoundedPercent` | src/components/kanban/kanban-board.tsx:159 | the result is the integer nearest to `100 * part / whole`, halves rounded up |
| `Statistics.RoundedPercentUnique` | src/components/kanban/kanban-board.tsx:159 | only one integer satisfies that rounding condition |
| `Statistics.RoundedPercentBounds` | src/components/kanban/kanban-board.tsx:157-159 | a part of the whole rounds to a percentage in 0..100: 100 when all is done, 0 when nothing is |
| `Statistics.StatsOf` | src/components/kanban/kanban-board.tsx:152-160 | completed, in progress and pending are the lengths of `done`, `inProgress` and `todo`, total is their sum, and the completion rate lies in 0..100, is 0 for an empty board and otherwise the rounded share of `done` |
| `Statistics.ClearedStats` | src/components/kanban/kanban-board.tsx:59-63 | after a confirmed clear every statistic is 0 |
| `Statistics.ThreeTaskStats` | src/components/kanban/kanban-board.tsx:152-160 | two tasks to do and one done give total 3, completed 1, pending 2 and a rate of 33 |
| `KanbanComponent.KanbanBoard.constructor` | src/components/kanban/kanban-board.tsx:27-31 | the component starts with three empty columns |
| `KanbanComponent.KanbanBoard.SetNewTask` | src/components/kanban/kanban-board.tsx:291 | typing replaces the input text and leaves the board alone |
| `KanbanComponent.KanbanBoard.AddTask` | src/components/kanban/kanban-board.tsx:196-207 | the board becomes `Add` of the old board; white-space-only input keeps board and input, other input clears the input; a fresh id keeps ids unique |
| `KanbanComponent.KanbanBoard.RemoveTask` | src/components/kanban/kanban-board.tsx:209-214 | the board becomes `Remove` of the old board and ids stay unique |
| `KanbanComponent.KanbanBoard.HandleDrop` | src/components/kanban/kanban-board.tsx:114-142 | the board becomes `Drop` of the old board; with unique ids, ids stay unique and the number of tasks is kept |
| `KanbanComponent.KanbanBoard.ClearAllTasks` | src/components/kanban/kanban-board.tsx:57-66 | a confirmed clear empties the board, a declined one changes nothing |

## Left out

- Persistence: reading the saved board from `localStorage` on mount, writing it on every change and removing it on clear (lines 34-53, 64), with `JSON.parse`/`JSON.stringify`, are browser I/O and are not modelled; so neither is the save-then-load round trip.
- Id generation with `Date.now()` (line 199) reads the clock: the id is a parameter of `Add`, and the uniqueness lemmas assume it is fresh rather than derive it.
- The confirmation dialog `window.confirm` (line 58) is a UI side effect: its answer is a boolean parameter of `Clear`.
- Statistics.RoundedPercent: computes over exact rationals, so it idealises the floating-point division and multiplication before `Math.round` (line 159). The two can differ: for 23 of 40 tasks done the double product `23 / 40 * 100` is 57.49999999999999, which the component shows as 57, while the model gives 58; for 29 of 200 the component shows 14 and the model 15.
- The drop payload is taken already parsed: `None` stands for a `JSON.parse` that threw (lines 124, 139-141). A payload whose `sourceStatus` names no column, or whose fields have the wrong types, is not modelled, since `DragData` carries a `Status`.
- Writing the payload at drag start (lines 73-76), all CSS class changes in the drag handlers, the `draggedItem` state (declared at line 69 and never used), `Column`, and the markup of `Statistics` are presentation only.
- React's scheduling of state updates is not modelled: each handler applies its updater to the current board at once.
- `src/constants/messages.ts` is not part of this model: it is a table of constant strings and a random pick among them.

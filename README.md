# AI Task App: a verified model of its task logic

AI Task App is a React application that turns indented, Markdown-style text
into a forest of tasks. It shows the root tasks on a Kanban board, either by
status (To Do, On Progress, Done) or by project. It also tracks a "quest
stage" from how many root tasks are done. This project models, in Dafny, the
logic behind that:

- the outline parser;
- the application's state and its handlers;
- the two boards with their priority sort;
- each column's project colour;
- a task card's interactions;
- the text box the outline is typed into.

The model follows the TypeScript source, also where the source's own
comments promise something else (more below).

Modules, one per source file plus three shared ones:

- `Types` holds the data model:
  - `Task` is one datatype for both the TypeScript `Task` and `SubTask`, whose optional `project` and `priority` fields are `Option`s. Children sit in `subtasks`.
  - `ActionItem`, `Status`, `Priority` and `ViewMode` are datatypes too.
  - Ids are natural numbers.
- `JsString` models the JavaScript string functions the source relies on: `trim`, `search(/\S|$/)`, `split('\n')` and `substring`.
- `Forest` holds facts about task forests:
  - the multiset of ids at every depth, and the invariant that no id occurs twice;
  - a preorder *outline* of (depth, node-without-children) entries, which says precisely which nodes an operation changed.
- `TaskParser` models `parseTaskInput` (src/utils/taskParser.ts):
  - a pure pre-pass cleans each line;
  - the method `BuildForest` keeps the source's loop over a parent stack;
  - the loop is proved equal to a left fold `Run` over an abstract state.
- `App` models src/App.tsx:
  - the tree rebuilds returned by `handleStatusChange`, `handleProjectChange`, `handlePriorityChange`, `handleToggleExpand`, `handleDelete` and `handleAddSubtask`;
  - the project list and the quest stage;
  - class `TaskApp`, whose fields are the component's state and whose methods are its handlers. Its invariant `Valid()` says:
    - ids are distinct;
    - ids are below the id supply;
    - the project list is free of duplicates and contains `Uncategorized`;
    - the stage agrees with the tasks.
- `PrioritySort` is the `sortByPriority` that both boards share: a stable sort, High, then Medium, then Low.
- `KanbanBoard` models src/components/KanbanBoard.tsx:
  - the three status columns, `statusMap` and `handleDrop`;
  - class `Board` for the clear-column dialog, whose `ConfirmClearColumn` deletes through a `TaskApp`.
- `ProjectBoard` models src/components/ProjectBoard.tsx: which root is shown in which project column.
- `ProjectColumn` models the `getProjectColor` colour of src/components/ProjectColumn.tsx. Class `ColorAllocator` holds the module-wide `usedColors` set.
- `TaskCard` models src/components/TaskCard.tsx:
  - the checkbox and the priority badge;
  - action-item toggling and the card's style;
  - class `Card` for the card's editing state.
- `TaskInput` models src/components/TaskInput.tsx:
  - class `InputForm`, which holds the text box's state;
  - the module-level method `Submit`, which wires the form's `onTaskAdd` to `TaskApp.HandleTaskAdd`.

Inputs the model replaces with parameters:

- `crypto.randomUUID()` is replaced by a counter, `nextId`, which the parser and the application thread through. Each id it hands out is the next number, so it is fresh.
- The drag's `dataTransfer` payload becomes an `Option<Id>` parameter (the empty string is `None`).
- The text box's selection becomes two integer parameters.
- A pressed key becomes a string parameter.

Where the code does something other than its comments or a reader would expect, the model follows the code:

- **The parser keeps only two levels.**
  - The comments in src/utils/taskParser.ts say that going deeper makes the previous task the parent (line 58), that going up pops to the right level (line 62), and that a line at the same level keeps its parent (line 69).
  - The code does not do that. Its stack only ever holds the latest root, because it pushes the current parent again (lines 53 and 59-60) and never the new task. Every attached indented line therefore becomes a direct child of that root.
  - `A\n    B\n        C\n    D` gives `A` the children `[B, C, D]`, not `B` under `A` with `C` under `B` (`TaskParser.DeepOutlineExample`).
  - Indented lines with no usable stack entry are dropped.
- **A blank edit is not discarded.** One might expect that clearing a card's text and leaving the field keeps the old content. The code at src/components/TaskCard.tsx:130-135 writes the empty content instead.

## Model

| member | source | states |
|---|---|---|
| TaskParser.ParseForest | src/utils/taskParser.ts:8-83 | defines what `parseTaskInput` returns: the fold `Run` over the cleaned lines with their base indentation; `ParseTaskInput`, `ParseFacts` and `RunOutline` state what it builds |
| TaskParser.ParsedLines | src/utils/taskParser.ts:10-17 | defines the pre-pass: split, clean and measure every line, then drop the empty ones; `NonEmptyKeeps` and `BlankInputParsesToNothing` state what survives |
| TaskParser.ParseLine | src/utils/taskParser.ts:11-16 | defines one line's `ParsedLine`: its cleaned content and the count of its leading white space |
| TaskParser.CleanLine | src/utils/taskParser.ts:12-14 | defines a line's content: trimmed, then both marker expressions; the `Clean…Line` lemmas state its result for each shape of line |
| TaskParser.MinPositiveIndentation | src/utils/taskParser.ts:22-26 | there is no positive indentation (`Infinity`) exactly when no line is indented; otherwise it is a positive indentation that occurs and is at most every positive one |
| TaskParser.Level | src/utils/taskParser.ts:35 | defines `Math.floor(indentation / baseIndentation)`, 0 for an `Infinity` base; `LevelZeroIff` states which lines are at level 0 |
| TaskParser.Run | src/utils/taskParser.ts:28-80 | the walk's state after any number of lines is coherent: the stack entries are all the latest root, or all `undefined`; `BuildForest` is proved to compute it |
| TaskParser.ParseTaskInput | src/utils/taskParser.ts:8-83 | the parser returns exactly the fold `ParseForest` of its input, draws one id per non-empty cleaned line (dropped lines included), and its result has distinct ids in the drawn range, at most two levels, and roots that are the unindented lines in order |
| TaskParser.BuildForest | src/utils/taskParser.ts:19-82 | the loop over the parent stack (indices of the latest root, or `undefined`) computes the abstract fold `Run`; its invariant ties the concrete stack and `previousIndentLevel` to the fold's state |
| TaskParser.ParseFacts | src/utils/taskParser.ts:28-80 | the parsed forest's root contents are the unindented lines' contents in order, every node has the parser's default fields, no child has children, and the ids are distinct and lie in `[firstId, firstId + lines)` |
| TaskParser.RunOutline | src/utils/taskParser.ts:49-76 | the preorder outline of the result is the kept lines in input order, roots at depth 0 and every other kept line at depth 1 under the latest root |
| TaskParser.OrphansDropped | src/utils/taskParser.ts:56-76 | once the stack is empty or holds only `undefined`, indented lines are dropped until the next unindented line and the forest does not change |
| TaskParser.OrphansBeforeFirstRoot | src/utils/taskParser.ts:56-76 | when no line is at level 0, no line is kept and the forest is empty |
| TaskParser.TwoLevelOutlineKept | src/utils/taskParser.ts:49-76 | an outline of roots and lines one level below them, starting with a root, loses no line |
| TaskParser.DeepOutlineExample | src/utils/taskParser.ts:57-71 | for levels 0, 1, 2, 1, 1 the root gets the next three lines as direct children and the last line is dropped |
| TaskParser.FlatInputAllRoots | src/utils/taskParser.ts:22-26 | with no indented line the base is `Infinity`, never the `|| 4` default, and every line becomes a root, in order |
| TaskParser.LevelZeroIff | src/utils/taskParser.ts:22-35 | quantising by the smallest positive indentation sends a line to level 0 exactly when it is unindented |
| TaskParser.StripTaskMarker | src/utils/taskParser.ts:13 | the first marker expression returns a suffix of the line, the line itself exactly when it does not start with a bullet, and otherwise a rest not starting with white space |
| TaskParser.StripTaskMarkerOf | src/utils/taskParser.ts:13 | bullet, white space, optional checkbox and white space in front of a rest are removed and exactly the rest remains |
| TaskParser.StripListMarkerOf | src/utils/taskParser.ts:14 | a second bullet followed by white space is removed with that white space |
| TaskParser.CleanPlainLine | src/utils/taskParser.ts:12-14 | a line without a marker keeps its trimmed text |
| TaskParser.CleanMarkedLine | src/utils/taskParser.ts:12-14 | an indented marked line keeps the text after its marker |
| TaskParser.CleanDoublyMarkedLine | src/utils/taskParser.ts:13-14 | a marked line whose text starts with another bullet and white space loses both markers |
| TaskParser.CleanMarkerOnlyLine | src/utils/taskParser.ts:12-17 | a line holding only a marker cleans to nothing |
| TaskParser.NonEmptyKeeps | src/utils/taskParser.ts:17 | a cleaned line survives the filter exactly when its content is not empty |
| TaskParser.BlankInputParsesToNothing | src/utils/taskParser.ts:17-19 | input whose every line cleans to nothing parses to the empty forest |
| TaskParser.EmptyInputParsesToNothing | src/utils/taskParser.ts:10-19 | the empty string parses to no task |
| JsString.Trim | src/utils/taskParser.ts:12 | `trim` returns an infix of its input (after the leading white space) that is empty or has non-white ends |
| JsString.TrimRemovesWhite | src/utils/taskParser.ts:12 | what `trim` removes on either side of that infix is white space only |
| JsString.TrimOfPadded | src/utils/taskParser.ts:12 | a core with non-white ends surrounded by white space trims to that core |
| JsString.LeadingWhite | src/utils/taskParser.ts:15 | `search(/\S|$/)` is the length of the white prefix: the index of the first non-white unit, or the length |
| JsString.SplitLines | src/utils/taskParser.ts:10 | `split('\n')` yields at least one piece, none holding a line feed, and joining them gives the input back |
| JsString.SplitJoin | src/utils/taskParser.ts:10 | splitting undoes joining, so the two are inverse |
| JsString.Substring | src/components/TaskInput.tsx:26 | for positions inside the string in order, `substring` is the slice between them; it is never longer than the string |
| App.Rebuild | src/App.tsx:31-151 | the recursive `map` shared by `updateStatus`, `updateProject`, `updatePriority`, `toggleExpand` and `addSubtask` keeps the number of roots; `RebuildRoot` and `RebuildOutline` state what it changes |
| App.Apply | src/App.tsx:33-35 | the replacement of the matched node (`{ ...item, status }` here, and likewise at lines 53-55, 73-75, 108-110 and 128-141) keeps the node's id and content, and only adding a subtask changes its children |
| App.DeleteTask | src/App.tsx:91-99 | the recursive `filter` of `deleteTask` keeps no more roots than there were; `DeleteRemoves` and `DeleteOutline` state what it removes |
| App.DoneCount | src/App.tsx:19 | the number of done roots is at most the number of roots |
| App.Stage | src/App.tsx:18-21 | the stage of a forest, from its roots only, lies in 1..5 |
| App.TaskApp.constructor | src/App.tsx:11-14 | the application starts with no tasks, `[Uncategorized]` as projects, the status view and stage 1 |
| App.StageOf | src/App.tsx:17-22 | the stage always lies in 1..5 |
| App.StageOfBounds | src/App.tsx:20-21 | the stage is the least value in 1..5 whose share of five reaches the done share, so the upper clamp never acts |
| App.StageNoneDone | src/App.tsx:18-21 | with no root done, in particular with no tasks, the stage is 1 |
| App.StageAllDone | src/App.tsx:18-21 | with roots all done the stage is 5 |
| App.StageMonotone | src/App.tsx:20-21 | the stage never decreases as more roots are done |
| App.StageOfRebuild | src/App.tsx:17-22 | edits below the roots, or of fields other than status, leave the stage unchanged |
| App.DoneCountAll | src/App.tsx:19 | the done count equals the number of roots exactly when every root is done |
| App.DoneCountNone | src/App.tsx:19 | the done count is zero exactly when no root is done |
| App.CeilDivBounds | src/App.tsx:20 | the integer ceiling is the least `q` with `q * b >= a` |
| App.TaskApp.HandleTaskAdd | src/App.tsx:24-27 | the parsed roots are appended after the existing tasks, the id supply advances by the number of kept lines, and the invariant is kept |
| App.TaskApp.AppendRoots | src/App.tsx:26 | `[...prev, ...newTasks]`: the new roots go after the old ones, the supply continues after their ids, and the invariant is kept |
| App.TaskAddKeepsDistinct | src/App.tsx:24-27 | roots with fresh ids appended to a distinct forest keep it distinct and below the advanced supply |
| App.RebuildRoot | src/App.tsx:29-122 | each root of a rebuild is the matched node edited, or a copy of the root with its children rebuilt |
| App.RebuildOutline | src/App.tsx:29-122 | a rebuild changes exactly the matched node's entry in the outline; its descendants are kept unchanged because there is no recursion below a match; a new subtask goes at the end of its block; every other entry keeps its data, depth and position |
| App.RebuildAbsent | src/App.tsx:29-122 | rebuilding for an id that occurs nowhere leaves the forest as it was |
| App.RebuildSkeleton | src/App.tsx:29-122 | status, project, priority and expand edits keep every id and the nesting in place |
| App.RebuildKeepsIds | src/App.tsx:29-122 | the same edits keep the ids distinct and below any bound they were below |
| App.ToggleTwice | src/App.tsx:104-122 | toggling the same node twice restores the forest |
| App.TaskApp.ApplyEdit | src/App.tsx:29-122 | a field edit replaces the forest by its rebuild and keeps the invariant, the projects, the view mode and the id supply |
| App.TaskApp.HandleStatusChange | src/App.tsx:29-47 | the forest becomes its status rebuild and everything else is kept |
| App.TaskApp.HandleProjectChange | src/App.tsx:49-67 | the forest becomes its project rebuild and everything else is kept |
| App.TaskApp.HandlePriorityChange | src/App.tsx:69-87 | the forest becomes its priority rebuild and everything else is kept |
| App.TaskApp.HandleToggleExpand | src/App.tsx:104-122 | the forest becomes its expand-toggle rebuild and everything else is kept |
| App.DeleteRemoves | src/App.tsx:89-102 | after a deletion no node at any depth carries the id, and no id is added |
| App.DeleteAbsent | src/App.tsx:89-102 | deleting an id that occurs nowhere leaves the forest as it was |
| App.DeleteOutline | src/App.tsx:89-102 | deletion removes exactly the matched node's block (the node and its subtree) from the outline and keeps every other node's data, depth and order |
| App.TaskApp.HandleDelete | src/App.tsx:89-102 | the forest becomes its deletion, the id occurs nowhere afterwards, and the invariant is kept |
| App.NewSubtask | src/App.tsx:129-136 | the new subtask carries the drawn id, is titled "New subtask", takes its parent's status, is childless, expanded and of Low priority, and has no project |
| App.AddSubtaskIds | src/App.tsx:124-154 | adding a subtask under an id that occurs once adds exactly the new id to the forest's ids |
| App.AddSubtaskKeepsDistinct | src/App.tsx:124-154 | with a fresh child id, adding a subtask keeps the forest distinct and below the advanced supply |
| App.TaskApp.HandleAddSubtask | src/App.tsx:124-154 | the forest gains the subtask with the next fresh id, the supply advances by one, and the invariant is kept |
| App.AddProject | src/App.tsx:156-160 | the name is appended unless already listed; order is kept, the name is listed afterwards, nothing else is added, and there are still no duplicates |
| App.TaskApp.HandleAddProject | src/App.tsx:156-160 | the project list becomes its `AddProject` and the tasks are unchanged |
| App.TaskApp.SetViewMode | src/App.tsx:169-180 | only the view mode changes |
| PrioritySort.EffectivePriority | src/components/KanbanBoard.tsx:104-105 | defines `priority || 'Low'`: a missing priority counts as Low |
| PrioritySort.SortByPriority | src/components/KanbanBoard.tsx:102-108 | the sort keeps the number of tasks; the lemmas below pin it down (same comparator at src/components/ProjectBoard.tsx:33-39) |
| PrioritySort.SortSorted | src/components/KanbanBoard.tsx:102-108 | the result is ordered High, Medium, Low, with a missing priority counted as Low |
| PrioritySort.SortPermutation | src/components/KanbanBoard.tsx:102-108 | the result is a permutation of the input |
| PrioritySort.SortBucket | src/components/KanbanBoard.tsx:102-108 | tasks of equal priority keep their input order (the sort is stable) |
| PrioritySort.SortIsBuckets | src/components/KanbanBoard.tsx:96-108 | the result is the High tasks, then the Medium ones, then the Low ones, each group in input order |
| PrioritySort.StableSortUnique | src/components/KanbanBoard.tsx:96-108 | any ordered rearrangement that keeps each priority group in input order equals the model's result |
| KanbanBoard.WithStatus | src/components/KanbanBoard.tsx:112 | `tasks.filter(t => t.status === status)` keeps no more roots than there are; `StatusPartition` and `ColumnContents` state which |
| KanbanBoard.MakeColumn | src/components/KanbanBoard.tsx:111-128 | defines one entry of `columns`: title, sorted tasks, colour, count and status; `ColumnContents` states what it holds |
| KanbanBoard.StatusMap | src/components/KanbanBoard.tsx:131-135 | defines `statusMap`, with `None` for a title it does not list; `StatusMapOfTitle` states its values |
| KanbanBoard.StatusPartition | src/components/KanbanBoard.tsx:110-129 | every root is in exactly one of the three status filters, as often as it occurs |
| KanbanBoard.Columns | src/components/KanbanBoard.tsx:110-129 | there are three columns, To Do, On Progress and Done, for todo, inProgress and done |
| KanbanBoard.ColumnContents | src/components/KanbanBoard.tsx:110-129 | a column holds exactly the roots of its status, sorted by priority and otherwise in board order, and its count is their number |
| KanbanBoard.ColumnsPartition | src/components/KanbanBoard.tsx:110-129 | the three columns together hold every root exactly as often as the board does |
| KanbanBoard.StatusMapOfTitle | src/components/KanbanBoard.tsx:131-135 | `statusMap` sends each column's heading to that column's status |
| KanbanBoard.HandleDrop | src/components/KanbanBoard.tsx:141-147 | a drop requests a status change exactly when an id was dragged and the view is the status view, to the status of the column's title |
| KanbanBoard.DropMovesRoot | src/components/KanbanBoard.tsx:141-147 | dropping a root on a column in the status view requests that column's status, and once applied the root sits in that column |
| KanbanBoard.Board.constructor | src/components/KanbanBoard.tsx:86-94 | the dialog starts closed with an empty title and status todo |
| KanbanBoard.Board.Close | src/components/KanbanBoard.tsx:209 | closing the dialog resets it to closed, with an empty title and status todo |
| KanbanBoard.Board.HandleClearColumn | src/components/KanbanBoard.tsx:149-155 | the dialog opens for the given column title and status |
| KanbanBoard.Board.ConfirmClearColumn | src/components/KanbanBoard.tsx:157-161 | the application's forest loses exactly the roots of the dialog's status (their ids deleted one by one), keeps its invariant, and the dialog resets |
| KanbanBoard.DeleteAll | src/components/KanbanBoard.tsx:158-159 | defines `forEach(task => onDelete(task.id))` as one deletion after another; `DeleteAllRoots` and `ClearColumnEffect` state the result |
| KanbanBoard.ClearColumnEffect | src/components/KanbanBoard.tsx:157-161 | deleting the ids of a status's roots one after another leaves exactly the other roots, in order and intact |
| KanbanBoard.DeleteAllRoots | src/components/KanbanBoard.tsx:158-159 | deleting root ids one after another equals dropping the roots with those ids at once |
| KanbanBoard.RootIdsDistinct | src/components/KanbanBoard.tsx:158-159 | in a forest without repeated ids, different roots have different ids |
| ProjectBoard.InColumn | src/components/ProjectBoard.tsx:43-48 | defines the filter of `getProjectTasks`; `ColumnsOverlap` and `ShownSomewhere` state what it lets through |
| ProjectBoard.ProjectTasks | src/components/ProjectBoard.tsx:41-50 | defines `getProjectTasks`; `ProjectColumnContents` states what it holds |
| ProjectBoard.Board | src/components/ProjectBoard.tsx:54-65 | defines the columns of `projects.map`; `BoardColumns` states them |
| ProjectBoard.ProjectColumnContents | src/components/ProjectBoard.tsx:33-50 | a project column holds exactly the roots of that project (`Uncategorized` also takes those without a project and those with the empty name), each as often as it occurs, sorted by priority, ties in input order |
| ProjectBoard.BoardColumns | src/components/ProjectBoard.tsx:52-65 | there is one column per listed project, in list order, each showing that project's roots |
| ProjectBoard.ColumnsOverlap | src/components/ProjectBoard.tsx:41-50 | two different columns share a root only when they are `Uncategorized` and the empty name |
| ProjectBoard.AtMostOneColumn | src/components/ProjectBoard.tsx:41-65 | with no empty project name listed and no repeats, every root is in at most one column |
| ProjectBoard.ShownSomewhere | src/components/ProjectBoard.tsx:41-65 | with `Uncategorized` listed, a root is shown exactly when it has no project, the empty project, or a listed project |
| ProjectColumn.HandleDrop | src/components/ProjectColumn.tsx:80-88 | a drop requests a project change exactly when an id was dragged, for that id and the column's project, in either view |
| ProjectBoard.ProjectChangeMovesRoot | src/components/ProjectColumn.tsx:80-88 | dropping a root on a project's column requests a change to that project, and applying it sets the root's project and puts the root in that project's column |
| ProjectColumn.CharCodeSum | src/components/ProjectColumn.tsx:50 | defines the hash, the sum of the code units; `CharCodeSumAppend` states its additivity |
| ProjectColumn.Choose | src/components/ProjectColumn.tsx:31-56 | defines one call's colour and the used set afterwards; `ChooseFixed`, `GrayOnlyUncategorized` and `ChooseNew` state them |
| ProjectColumn.Pick | src/components/ProjectColumn.tsx:38-55 | defines the choice for a project without a fixed colour, after the reset of lines 44-47; `PickNew` states it |
| ProjectColumn.ColorAllocator.constructor | src/components/ProjectColumn.tsx:27-28 | the used set starts empty |
| ProjectColumn.ColorAllocator.GetProjectColor | src/components/ProjectColumn.tsx:31-56 | the call, including its retry after clearing the set, returns the colour of `Choose` and leaves the used set as `Choose` says, within the palette |
| ProjectColumn.ChooseFixed | src/components/ProjectColumn.tsx:32-36 | blank names get grey and named projects get their fixed colour, without touching the used set |
| ProjectColumn.GrayOnlyUncategorized | src/components/ProjectColumn.tsx:31-55 | grey is returned exactly for blank names and `Uncategorized` |
| ProjectColumn.ChooseNew | src/components/ProjectColumn.tsx:38-55 | a new project takes an unused palette colour at its hash modulo the number available, which is then marked used; when all eight were used the set restarts with that colour alone |
| ProjectColumn.PickNew | src/components/ProjectColumn.tsx:38-55 | the same for a given hash |
| ProjectColumn.AvailableEmpty | src/components/ProjectColumn.tsx:39-44 | the palette runs out exactly when all of its colours are used |
| ProjectColumn.UsedBounded | src/components/ProjectColumn.tsx:28-54 | the used set never holds more than the eight palette colours |
| ProjectColumn.CharCodeSumAppend | src/components/ProjectColumn.tsx:50 | the hash of a concatenation is the sum of the hashes |
| ProjectColumn.ColorDrift | src/components/ProjectColumn.tsx:31-56 | for project "A" the first call gives Violet and the next call Amber |
| ProjectColumn.ChooseRemembered | src/components/ProjectColumn.tsx:31-56 | a remembered project gets its remembered colour and changes nothing; a new one gets the colour of `Choose`, which is remembered |
| ProjectColumn.RememberedStable | src/components/ProjectColumn.tsx:31-56 | with remembered colours, repeating a call gives the same colour and state |
| TaskCard.CheckboxClick | src/components/TaskCard.tsx:111-114 | the click reports the card's own id with the status `CheckboxStatus` gives |
| TaskCard.CheckboxStatus | src/components/TaskCard.tsx:111-114 | the checkbox requests done exactly when the task is not done, and never inProgress |
| TaskCard.CheckboxTwice | src/components/TaskCard.tsx:111-114 | a second click undoes the first, except that an inProgress task comes back as todo |
| TaskCard.IndexOf | src/components/TaskCard.tsx:143 | `indexOf` is the position of the first match, or -1 when there is none |
| TaskCard.NextPriority | src/components/TaskCard.tsx:141-144 | defines the next entry of `priorities` after the current one; `PriorityCycles` and `ThreeClicks` state the cycle |
| TaskCard.PriorityCycles | src/components/TaskCard.tsx:141-146 | the badge goes Low to Medium to High and back to Low |
| TaskCard.ThreeClicks | src/components/TaskCard.tsx:137-146 | every click changes the priority, and three clicks give it back |
| TaskCard.PriorityClick | src/components/TaskCard.tsx:137-146 | the click names the card's task, and a missing priority counts as Low, so Medium is requested |
| TaskCard.PriorityClickOnRoot | src/components/TaskCard.tsx:137-146 | applied to a root, the request sets that root's priority to the next one |
| TaskCard.ToggleItems | src/components/TaskCard.tsx:173-177 | defines the `map` of `toggleActionItem`; `ToggleItemsFacts`, `ToggleItemsTwice` and `ToggleItemsAbsent` state it |
| TaskCard.ToggleItemsFacts | src/components/TaskCard.tsx:171-179 | toggling keeps the items' number, ids and contents and flips completion exactly for the items with that id |
| TaskCard.ToggleItemsTwice | src/components/TaskCard.tsx:171-179 | toggling twice restores the items |
| TaskCard.ToggleItemsAbsent | src/components/TaskCard.tsx:171-179 | toggling an id no item has leaves the items as they were |
| TaskCard.ToggleActionItem | src/components/TaskCard.tsx:171-179 | only the action items change, a task without them is unchanged, and toggling again restores the task |
| TaskCard.Card.ToggleItem | src/components/TaskCard.tsx:171-179 | the card's task becomes its `ToggleActionItem` |
| TaskCard.ProjectStyle | src/components/TaskCard.tsx:79-81 | defines `getProjectStyle`; `StyleFromTable` states its results |
| TaskCard.CardStyle | src/components/TaskCard.tsx:181 | defines the style a card is drawn with; `UnsetProjectStyle` and `ChildTakesParentStyle` state it |
| TaskCard.StyleKey | src/components/TaskCard.tsx:181 | the style key is the parent's project when truthy, else the task's when truthy, else `Uncategorized` |
| TaskCard.StyleFromTable | src/components/TaskCard.tsx:79-81 | every card gets one of the table's styles, and a name not in the table gets the `Uncategorized` style |
| TaskCard.UnsetProjectStyle | src/components/TaskCard.tsx:79-81 | a top-level card with no project, or the empty one, gets the `Uncategorized` style |
| TaskCard.ChildTakesParentStyle | src/components/TaskCard.tsx:181 | a subtask card of a root with a non-empty project takes the root's style, whatever its own project |
| TaskCard.Card.constructor | src/components/TaskCard.tsx:93-95 | a card starts out of edit mode with the task's content as the edit text |
| TaskCard.Card.HandleDoubleClick | src/components/TaskCard.tsx:116-118 | a double click enters edit mode and changes nothing else |
| TaskCard.Card.Type | src/components/TaskCard.tsx:225 | typing replaces the edit text only |
| TaskCard.Card.HandleBlur | src/components/TaskCard.tsx:130-135 | leaving the field ends edit mode and sets the content to the trimmed edit text, touching no other field |
| TaskCard.CommitIdempotent | src/components/TaskCard.tsx:130-135 | committing an already committed text changes nothing |
| TaskCard.Card.HandleKeyDown | src/components/TaskCard.tsx:120-128 | Enter commits like a blur, Escape leaves edit mode and restores the edit text from the content, and other keys change nothing |
| TaskInput.InputForm.constructor | src/components/TaskInput.tsx:9-10 | the box starts empty and collapsed |
| TaskInput.InputForm.Type | src/components/TaskInput.tsx:42 | typing replaces the text only |
| TaskInput.InputForm.Focus | src/components/TaskInput.tsx:43 | focusing expands the box and keeps the text |
| TaskInput.InputForm.HandleSubmit | src/components/TaskInput.tsx:12-19 | non-blank text is handed on trimmed and the box is emptied and collapsed; blank text hands nothing on and changes nothing |
| TaskInput.Submit | src/components/TaskInput.tsx:12-19 | a non-blank submission appends the roots parsed from the trimmed text to the application and resets the box; a blank one changes neither |
| TaskInput.InputForm.HandleKeyDown | src/components/TaskInput.tsx:21-33 | Tab replaces the selection by four spaces and returns the caret `start + 4` that the corrected callback sets (the source's callback fails to set it, see Findings); other keys change nothing |
| TaskInput.DeferredCaret | src/components/TaskInput.tsx:29-31 | the delayed callback places the caret at `start + 4` exactly when it reaches the text area, and places nothing otherwise |
| TaskInput.TabCaretLost | src/components/TaskInput.tsx:29-31 | as written the callback reads the event's `currentTarget` after dispatch, finds nothing and places no caret |
| TaskInput.TabCaretCaptured | src/components/TaskInput.tsx:28-30 | with the text area captured before the timeout, the caret lands right after the four inserted spaces |
| TaskInput.TabSplice | src/components/TaskInput.tsx:26 | defines the new text after Tab; `TabSpliceFacts` and `TabAtCaret` state it |
| TaskInput.TabSpliceFacts | src/components/TaskInput.tsx:24-27 | for a selection inside the text, the text before and after it is kept, four spaces take its place, and the length changes accordingly |
| TaskInput.TabAtCaret | src/components/TaskInput.tsx:24-30 | at a caret with no selection, removing the four spaces after it gives back the text |
| TaskInput.FirstLineUnindented | src/components/TaskInput.tsx:14-15 | the first line of trimmed text starts with its first character and has no indentation |
| TaskInput.FirstLineIsFirstRoot | src/components/TaskInput.tsx:14-15 | the first line of a submission becomes the first new root unless cleaning empties it |

## Left out

- Rendering, styling classes other than the card and colour tables, hover state, focus effects and React's scheduling of state updates are not modelled. Each handler is one atomic step on the state.
- `crypto.randomUUID()` is replaced by the counter `nextId`. Fresh ids are therefore natural numbers drawn in order.
- App.TaskApp.HandleAddSubtask: the source draws a new UUID for every node whose id matches. The model gives every match the one fresh id it draws. Under the invariant the id matches at most one node, so the two agree.
- App.DeleteTask: the source's `deleteTask` writes the filtered children back into each kept node (`item.subtasks = ...`) before returning. That write happens in place, on objects the old state shares. The model returns new values, so that aliasing is not modelled.
- App.StageOf: the source divides in floating point and rounds up with `Math.ceil`. The model uses the exact integer ceiling.
- Strings are sequences of UTF-16 code units. Surrogate pairs are not modelled, and neither are floating-point effects on very long names in the colour hash.
- Object.prototype keys such as "constructor" are not modelled. In the source they make a lookup in `projectColors` or `statusMap` truthy; the model treats them as absent.
- KanbanBoard.HandleDrop: the `dataTransfer` payload is a parameter. An absent or empty id is `None`.
- `generateActionItems` in src/components/TaskCard.tsx is left out: it is an asynchronous mock with a delay and random ids.
- The QuestProgress and CompactQuestProgress components are not part of this model, and neither are the AddProject component and the clear-column modal's theme texts. The confirmation step itself is modelled.
- TaskCard.Card.HandleBlur and TaskCard.Card.ToggleItem: in the source the card writes `task.content` (line 133) and `task.actionItems` (line 173) straight into the task object it shares with the application state. The model's `Card` holds its own copy of the task, so that aliasing is not modelled. `toggleActionItem` also calls no state setter, so it requests no re-render; the model does not capture when, or whether, the change is drawn.
- TaskInput.InputForm.HandleKeyDown: the source places the caret later, in a `setTimeout` callback, and as written that callback fails (see Findings). The model returns the position line 30 asks for, `start + 4`, which is what the corrected callback sets. The DOM selection is passed in as two integers, and the timing of the callback is not modelled.
- TaskInput.InputForm.HandleSubmit: it returns the text handed to `onTaskAdd`, and `TaskInput.Submit` passes that text to the application. The order between the form's state setters and the callback is not observable in the model.
- Drag-over highlighting (`handleDragOver`, `handleDragLeave`) and `handleDragStart` are not modelled. They only touch the DOM or the drag payload.

## Findings

| source | as written | input that shows it | evidently intended | confidence | as-written member | corrected member |
|---|---|---|---|---|---|---|
| src/components/TaskInput.tsx:29-31 | the delayed callback sets the caret through `e.currentTarget`, which React has reset to null once the handler returned, so the assignment throws and the caret stays where the value update left it | any Tab press in the expanded text box | the caret sits right after the four inserted spaces, as the comment at line 28 says; capture the text area before the timeout | not executed | TaskInput.TabCaretLost | TaskInput.TabCaretCaptured, TaskInput.InputForm.HandleKeyDown |
| src/components/ProjectColumn.tsx:31-56 | `getProjectColor` runs on every render (line 94) and takes a new project's colour from the colours not yet used, so each call marks one more colour used | project "A" (hash 65) with no colour used: the first render gives Violet (65 mod 8), the next render Amber (65 mod 7) | a project keeps one colour across renders, as the comment at line 30 says | not executed | ProjectColumn.ColorDrift | ProjectColumn.ChooseRemembered, ProjectColumn.RememberedStable |

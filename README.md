# To-Do.py in Dafny

A model of the in-memory core of the console to-do application `To-Do.py`, with proofs about it.

The application keeps a **store**: a dict from list name to list, whose insertion order fixes the order of every store-wide walk. A **list** is a sequence of task records. A **task** has an item, a timestamp, a completion flag, a due date, a priority and a list of subtasks. Subtasks are nested one level deep.

The model covers:

- the three list mutators, which address a task by 1-based position with an optional parent position;
- the stable two-key sort that the display applies to a list and to each task's subtasks;
- the completion percentage;
- the three store-wide queries (search, filter, reminders);
- the store operations: load, save and remove a list;
- the pass that fills in missing keys when the store file is read;
- two fragments of the list menu:
  - the priority check;
  - the decoding of the position a user types to remove or complete a task.

Layout, one module per file:

- `model.dfy` (`TodoModel`) defines the data:
  - `Task`, `Entry` (a name/list pair) and `Label` (a top-level or subtask position);
  - `Due`: `None`, the empty string the menu stores, or a date as a day number;
  - `Priority`: `None`, or the stored text;
  - `Rank`, the sort rank;
  - `TaskAt`, the addressing that the mutators use.
- `task_ops.dfy` (`TaskOps`) states what `add_todo`, `remove_todo` and `mark_completed` do to a list, as functions from the old list to the new one (`Appended`, `Removed`, `Completed`), with lemmas about counts, well-formedness and undoing.
- `todo_store.dfy` (`TodoStore`) holds the mutable objects:
  - `TodoList` is a class whose methods change its `tasks` field in place and are proved against the functions above.
  - `Store` is a class holding the names in insertion order and, beside them, the very list objects the menu edits. An edit made through a loaded list is therefore seen by the store without a save (`EditLoadedList`).
- `store_ops.dfy` (`StoreOps`) models the store as a value: `dict.get` with a default, item assignment and `del` on a sequence of name/list pairs (`Lookup`, `Assign`, `Delete`), with their lemmas.
- `sorting.dfy` (`Sorting`) models Python's stable `list.sort` with the key (rank, completed) as a stable insertion sort. It proves that:
  - the result is ordered by the key;
  - it is a permutation of the input;
  - it keeps the order of equal keys;
  - it is the only sequence with these properties.
- `progress.dfy` (`Progress`) is the completion percentage, computed with exact real division.
- `queries.dfy` (`Queries`) defines `Traversal`, a reference walk: lists in store order, then the tasks of each list, each task followed by its subtasks. `SearchTasks`, `FilterTasks` and `CheckReminders` are the source's nested loops. Each is proved to return a selection of that walk, and the lemmas then say which tasks the selection holds and in what order.
- `persistence.dfy` (`Persistence`) covers the records as read from and written to the JSON file, and the `setdefault` pass of `load_lists`. A saved store loads back unchanged.
- `seq_facts.dfy` (`SeqFacts`) holds a sequence fact that the store and query proofs share.
- `menu_input.dfy` (`MenuInput`) holds the priority check and the position decoding of the list menu. Positions are decoded both as written and as evidently intended (see Findings).

Conventions:

- Today's date and the creation timestamp are parameters.
- Dates are day numbers, so "tomorrow" is `today + 1`.
- Case conversion is ASCII.

## Model

| member | source | states |
|---|---|---|
| TodoModel.Rank | To-Do.py:96-97 | H, M and L rank 1, 2 and 3. Anything else ranks 4: `None`, the empty string, an unknown code. |
| TodoModel.SortKeyIsLexicographic | To-Do.py:97 | The packed key orders tasks exactly as the pair (rank, completed) does lexicographically, with False before True. |
| TodoModel.NewTask | To-Do.py:50 | The record `add_todo` builds: pending and without subtasks. Its properties are stated by `TaskOps.AppendedOneTask` and `TaskOps.AppendedWellFormed`. |
| TodoModel.SortKey | To-Do.py:97 | The key of the display sort. `TodoModel.SortKeyIsLexicographic` states that it orders tasks as the pair (rank, completed) does. |
| TodoModel.TaskAt | To-Do.py:59-70 | A top-level position `i` designates a task exactly when 1 ≤ `i` ≤ the length of the list, and the task is `tasks[i - 1]`. A parent `p` and subtask position `i` designate a task exactly when both are in range, and the task is subtask `i - 1` of task `p - 1`. |
| TaskOps.Done | To-Do.py:84-87 | A completed task has `completed` set and no due date or priority. Item, timestamp and subtasks are unchanged. |
| TaskOps.Appended | To-Do.py:46-54 | The new task goes at the end of the list, or at the end of the parent's subtasks. Every other task and field is unchanged. |
| TaskOps.Removed | To-Do.py:56-70 | An in-range position loses exactly its task and the others keep their order. An out-of-range position changes nothing. |
| TaskOps.Completed | To-Do.py:72-90 | An in-range position has its task replaced by `Done` of it and nothing else changes. An out-of-range position changes nothing. |
| TaskOps.AppendedOneTask | To-Do.py:46-54 | Adding creates exactly one task, found at the next position of its list or parent. Removing at that position gives back the old list. |
| TaskOps.AppendedWellFormed | To-Do.py:50-54 | Adding a task keeps the list well formed: nesting stays at one level and completed tasks carry no due date or priority. |
| TaskOps.RemovedCount | To-Do.py:56-70 | Removing a task drops it and its subtasks from the count. Removing a subtask drops one. The list stays well formed. |
| TaskOps.CompletedFacts | To-Do.py:72-90 | Completing keeps the task count and well-formedness. Completing twice is completing once. |
| TodoStore.TodoList.AddTodo | To-Do.py:46-54 | The list object's tasks become `Appended` of the old tasks and the new pending task. |
| TodoStore.TodoList.RemoveTodo | To-Do.py:56-70 | The method returns the task at the position, or None for "Invalid index". The tasks become `Removed` of the old ones. |
| TodoStore.TodoList.MarkCompleted | To-Do.py:72-90 | The method returns the task now at the position, or None for "Invalid index". That task is `Done` of the old one, and the tasks become `Completed` of the old ones. |
| TodoStore.TodoList.SortForDisplay | To-Do.py:96-111 | The list is sorted at the top level, then each task's subtasks are sorted in turn. The result is `DisplayOrder` of the old tasks. |
| TodoStore.Store.constructor | To-Do.py:30-31 | A new store is empty and valid. |
| TodoStore.Store.LoadTodoList | To-Do.py:38-40 | On a hit, the method returns the stored list object itself. On a miss, it returns a fresh list, not entered in the store. The tasks returned are the lookup of the name. |
| TodoStore.Store.SaveTodoList | To-Do.py:42-44 | An existing name keeps its place and maps to the given list. A new name is appended. Names and list objects stay distinct, and the contents become `Assign` of the old contents. |
| TodoStore.Store.RemoveList | To-Do.py:124-130 | The method reports whether the name was present. Only that entry goes, and the rest keep their order. An absent name changes nothing. |
| TodoStore.EditLoadedList | To-Do.py:236-255 | Adding a task through a loaded list changes the store at once, without a save. That name looks up `Appended` of its old list with the new task, for the given due date, priority and parent. Every other name looks up what it did before. |
| StoreOps.Lookup | To-Do.py:38-40 | `lists.get(name, [])`. Its properties are stated by `StoreOps.LookupAt` and `StoreOps.Absent`. |
| StoreOps.Assign | To-Do.py:42-44 | `lists[name] = todo_list`. Its properties are stated by `StoreOps.AssignAt`, `StoreOps.AssignNames`, `StoreOps.AssignLookup` and `StoreOps.Absent`. |
| StoreOps.Delete | To-Do.py:126-127 | `del lists[name]`. Its properties are stated by `StoreOps.DeleteAt`, `StoreOps.DeleteNames`, `StoreOps.DeleteLookup` and `StoreOps.Absent`. |
| StoreOps.Absent | To-Do.py:38-44 | For a name that is not a key, the lookup gives the empty list and saving appends the name. Removing then changes nothing (To-Do.py:129-130). |
| StoreOps.LookupAt | To-Do.py:38-40 | The lookup of a present name is the list stored under it. |
| StoreOps.AssignAt | To-Do.py:42-44 | Saving under a present name replaces that entry in place. |
| StoreOps.DeleteAt | To-Do.py:124-127 | Removing a present name takes out exactly that entry, and the others keep their order. |
| StoreOps.AssignNames | To-Do.py:42-44 | Saving adds no key but its own and keeps keys distinct. |
| StoreOps.AssignLookup | To-Do.py:42-44 | After a save, the name looks up the saved list and every other name looks up what it did before. |
| StoreOps.DeleteNames | To-Do.py:124-130 | Removing takes out that key alone and keeps keys distinct. |
| StoreOps.DeleteLookup | To-Do.py:124-130 | After a removal, the name looks up nothing and every other name looks up what it did before. |
| Sorting.StableSort | To-Do.py:97 | `list.sort` with the key (rank, completed). Its properties are stated by `Sorting.StableSortCorrect`, `Sorting.StableSortCharacterized` and `Sorting.StableSortIdempotent`. |
| Sorting.StableSortCorrect | To-Do.py:97 | The sorted list is ordered by the key, is a permutation of the input, and keeps the relative order of equal-key tasks. |
| Sorting.StableSortCharacterized | To-Do.py:97 | A sequence is key-ordered and keeps the equal-key order of the input exactly when it is the sorted list. So Python's stable sort gives this result. |
| Sorting.StableSortIdempotent | To-Do.py:97 | Sorting a key-ordered list changes nothing. Sorting twice is sorting once. |
| Sorting.SortedPrecedence | To-Do.py:96-97 | After sorting, a task of better rank comes first. Within a rank, pending tasks come before completed ones. |
| Sorting.SortSubtasksAt | To-Do.py:111 | Each task's subtasks are sorted, and the task is otherwise unchanged. |
| Sorting.SortSubtasksKeys | To-Do.py:111 | Sorting subtasks does not disturb the order of the top level. |
| Sorting.DisplayOrder | To-Do.py:96-111 | The order the display puts a list in. Its properties are stated by `Sorting.SortSubtasksAt`, `Sorting.SortSubtasksKeys` and `Sorting.DisplayOrderStable`. |
| Sorting.DisplayOrderStable | To-Do.py:96-111 | The display order keeps the list well formed. Displaying again reorders nothing. |
| Progress.CompletedCount | To-Do.py:181 | The count of completed subtasks is at most their number. It equals their number exactly when all are completed, and is 0 exactly when none is. |
| Progress.PercentageCompleted | To-Do.py:177-182 | The result is 0 without subtasks, and otherwise completed × 100 / count. It is always in [0, 100]. It is 100 exactly when there are subtasks and all are completed, and 0 exactly when none is. |
| Progress.CompletingSubtaskCounts | To-Do.py:76-79 | Completing a pending subtask adds one to its parent's completed count. Completing a completed one adds nothing. |
| Progress.OneSubtaskScenario | To-Do.py:177-182 | A task's only subtask, freshly added, gives 0%. Once completed, it gives 100%. |
| Queries.Accepts | To-Do.py:136-173 | The three per-task tests: the lower-cased keyword in the lower-cased item, the completion flag equal to the status, and a set due date on a pending task. Its properties are stated by `Queries.SelectMembers`, `Queries.QueryResults`, `Queries.SearchIgnoresCase` and `Queries.DueCheck`. |
| Queries.IsSubstring | To-Do.py:158 | `needle in hay` holds exactly when the needle occurs at some position of the hay. |
| Queries.Lower | To-Do.py:158 | `str.lower` on ASCII: the length is kept, each upper-case letter A–Z becomes its lower-case letter, and every other character is unchanged. |
| Queries.SubtaskHits | To-Do.py:160-162 | The subtasks of the task at `idx` are labelled by the pairs (`idx`, 1), (`idx`, 2), … in order. |
| Queries.CollectSubtasks | To-Do.py:160-162 | The inner loop returns the accepted subtasks of one task, in order, each with its label. |
| Queries.CollectList | To-Do.py:157-162 | The middle loop returns, for one list, each accepted task followed by its accepted subtasks. |
| Queries.Collect | To-Do.py:156-162 | The outer loop returns exactly the selection of the reference walk of the store. |
| Queries.SearchTasks | To-Do.py:153-163 | The search results are the walk's tasks and subtasks whose lower-cased item contains the lower-cased keyword, in walk order. |
| Queries.FilterTasks | To-Do.py:165-175 | The filter results are the walk's tasks and subtasks whose completion flag equals the status, in walk order. |
| Queries.SelectMembers | To-Do.py:158-159 | A hit is kept exactly when it is visited and the criterion accepts its task. |
| Queries.ListHitsMembers | To-Do.py:157-162 | The walk of a list visits exactly the tasks and subtasks that some label designates, each under that label. |
| Queries.TraversalMembers | To-Do.py:156-162 | The walk of the store visits exactly the tasks and subtasks of its lists, each with its list's name and its label. |
| Queries.QueryResults | To-Do.py:153-175 | A result of any query is exactly a task or subtask of the store, under its list and label, that the criterion accepts. |
| Queries.ResultsOncePerPlace | To-Do.py:153-175 | With distinct list names, no query lists the same position of the same list twice. |
| Queries.StatusPartition | To-Do.py:165-175 | On any sequence of visited tasks, the results of filtering by True and by False add up to the length of the sequence. |
| Queries.ListHitsCount | To-Do.py:157-162 | The walk of a list visits as many places as `TotalCount` counts tasks and subtasks. |
| Queries.TraversalCount | To-Do.py:156-162 | The walk of the store visits as many places as the store has tasks and subtasks. |
| Queries.FilterCountsStore | To-Do.py:165-175 | Filtering the store by True and by False together returns as many results as the store has tasks and subtasks. |
| Queries.SearchIgnoresCase | To-Do.py:158 | Searching for a keyword and for its lower-cased form give the same results. "meet" matches "Team Meeting". |
| Queries.LowerIdempotent | To-Do.py:158 | Lower-casing twice is lower-casing once. |
| Queries.DueTodayMessage | To-Do.py:141 | The "due today" reminder text, also used at line 148. `Queries.DueCheck` and `Queries.DueTodayReminded` state when it is produced. |
| Queries.DueTomorrowMessage | To-Do.py:143 | The "due tomorrow" reminder text, also used at line 150. `Queries.DueCheck` and `Queries.DueTomorrowReminded` state when it is produced. |
| Queries.DueCheck | To-Do.py:138-143 | A pending task whose due date is set gets the "due today" message when the date is today and the "due tomorrow" message when it is tomorrow. Otherwise it gets nothing. |
| Queries.Notices | To-Do.py:141-143 | One reminder per kept task, in order. |
| Queries.RemindSubtasks | To-Do.py:144-150 | The inner loop gives the reminders of one task's subtasks, in order. |
| Queries.RemindList | To-Do.py:137-150 | The middle loop gives, for one list, each task's reminder followed by its subtasks' reminders. |
| Queries.CheckReminders | To-Do.py:132-151 | The reminders are exactly those of the walk's tasks and subtasks that are due soon, in walk order. |
| Queries.DueTodayReminded | To-Do.py:140-141 | Every pending task or subtask due today gets its "due today" reminder, whatever its parent's state. |
| Queries.DueTomorrowReminded | To-Do.py:142-143 | Every pending task or subtask due tomorrow gets its "due tomorrow" reminder. |
| Queries.RemindersSound | To-Do.py:132-151 | Every reminder is the message of some pending task or subtask of the store that is due today or tomorrow. |
| Queries.RemindersOncePerTask | To-Do.py:132-151 | With distinct list names, there is one reminder per task or subtask due soon, each position at most once, in walk order. |
| Persistence.SetDefault | To-Do.py:25-28 | `dict.setdefault`. `Persistence.WithDefaults` states, key by key, that a present value is kept and a missing one gets the default. |
| Persistence.WithDefaults | To-Do.py:24-28 | After the four `setdefault` calls, every key is present. A present key keeps its value. A missing due date or priority becomes `None`, a missing completion flag False, and missing subtasks the empty list. A record with all keys is unchanged. |
| Persistence.FillDefaults | To-Do.py:23-28 | The loop over lists and top-level records gives `Defaulted` of what was read. |
| Persistence.DefaultedIdempotent | To-Do.py:23-28 | Defaulting twice is defaulting once. |
| Persistence.Encode | To-Do.py:33-36 | The record `json.dump` writes for a task carries every key the application reads. |
| Persistence.Decode | To-Do.py:23-29 | A record decodes only when it carries every key. The task it gives keeps the record's item and completion flag. |
| Persistence.DecodeEncode | To-Do.py:33-36 | A task written as a record reads back as the same task. |
| Persistence.LoadAfterSave | To-Do.py:17-36 | A saved store needs no defaulting when loaded and decodes to the store that was saved. |
| Persistence.LegacyRecordLoads | To-Do.py:24-28 | A record with only item and timestamp loads as a pending task with no due date, no priority and no subtasks. |
| Persistence.SubtaskRecordsNotDefaulted | To-Do.py:23-28 | Only top-level records are defaulted. A subtask record missing a key still misses it, and its task does not decode. |
| Persistence.DecodeEntry | To-Do.py:23-29 | A list decodes exactly when every one of its records does. |
| Persistence.DecodeStore | To-Do.py:23-29 | A store decodes exactly when every list does. Names and order are kept. |
| MenuInput.Upper | To-Do.py:251 | `str.upper` on ASCII: the length is kept, each lower-case letter a–z becomes its upper-case letter, and every other character is unchanged. |
| MenuInput.PriorityInput | To-Do.py:251-254 | An accepted answer is stored upper-cased, and is one of H, M, L or the empty string. |
| MenuInput.PriorityInputAccepts | To-Do.py:251-254 | Exactly H, h, M, m, L, l and the empty answer are accepted. Either case of a letter stores that letter upper-cased. The empty answer is stored as the empty string, which ranks 4. |
| MenuInput.LabelText | To-Do.py:114-118 | A shown label is non-empty. It is all digits exactly for a top-level task. |
| MenuInput.ParseDecimalOfDecimal | To-Do.py:260 | `int` of `str` of a natural number is that number. |
| MenuInput.DecodeToken | To-Do.py:257-262 | As written, a one-character answer `c` is the top-level position `ord(c) - 96`. A two-character answer with a digit first is a subtask position whose parent is that digit, 0 included. Anything else fails. |
| MenuInput.TopLevelLabelMissesAsWritten | To-Do.py:257-263 | As written, typing the one-digit label `n` of a top-level task decodes to position `n - 48`, which designates nothing, so nothing is removed or completed. |
| MenuInput.TopLevelLabelNeverReachesAsWritten | To-Do.py:257-263 | As written, no top-level label reaches its task. A one-digit label `n` decodes to position `n - 48`. A two-digit label decodes to a subtask of the first digit's task at a negative position. A longer label does not decode. Whatever it decodes to designates nothing, and removing or completing with it changes nothing. |
| MenuInput.MultiDigitParentFailsAsWritten | To-Do.py:259-260 | As written, the label of any subtask of the tenth task onwards fails to decode. |
| MenuInput.DecodeAddress | To-Do.py:257-262 | The corrected decoding. A non-empty string of digits decodes to the top-level position it spells. Non-empty digits followed by a letter a–z decode to that parent and the letter's position, a = 1. Nothing else decodes, the empty answer included. |
| MenuInput.DecodeLabelText | To-Do.py:99-122 | Every label the display shows decodes back to itself. |
| MenuInput.DecodersAgreeOnSubtasks | To-Do.py:257-262 | On subtask labels with a one-digit parent, the corrected decoding agrees with the decoding as written. |
| MenuInput.ShownLabelReachesTask | To-Do.py:256-271 | Typing a shown label reaches the task it labels: its parent is in range and the address is that label. |
| MenuInput.RemoveItem | To-Do.py:256-263 | The remove choice with the corrected decoding removes the task at the typed label. An unusable answer changes nothing. |
| MenuInput.MarkItem | To-Do.py:264-271 | The complete choice with the corrected decoding completes the task at the typed label. An unusable answer changes nothing. |

## Left out

- Console output is not modelled: `clear()`, every `print`, the ANSI strikethrough and the number formatting of the percentage (To-Do.py:6-15, 99-122). The messages "Removed", "Marked as completed" and "Invalid index" are modelled only as the returned `Option<Task>`.
- The weather display and the `weather_api` module are not modelled; `weather_api` is not part of this model.
- Reading and writing the JSON file is not modelled (`open`, `json.load`, `json.dump`). The file-not-found path appears only as the empty `Store` constructor. Records are modelled as the values `json.load` returns, and the keys "item" and "timestamp" are assumed present.
- The interactive main loop and `input()` are not modelled, except the priority check and the position decoding of the list menu.
- The clock and date parsing (`datetime.now`, `strptime`) are not modelled:
  - the creation timestamp is a parameter;
  - "today" is a parameter;
  - due dates are already-parsed day numbers.

  A due-date string that `strptime` would reject, and the error it would raise inside `check_reminders`, are not modelled.
- Unicode `str.lower`/`str.upper` are not modelled: case conversion is ASCII only.
- The float division of the percentage is not modelled: it is exact real division.
- TaskOps.Appended, TaskOps.Removed, TaskOps.Completed and the TodoList methods require the parent position to lie in 1..length. The source does not check it, and Python would index from the end or raise IndexError outside that range. So the as-written answer "0a", whose parent 0 Python reads as the last task, is decoded (`MenuInput.DecodeToken`) but not carried on to the operations.
- Subtask labels beyond the 26th (`chr(96 + k)` past "z") are outside the modelled label text.
- `int()` of one Unicode digit other than 0-9, which Python accepts, is not modelled: `int` only ever receives one character of the typed position (To-Do.py:260).
- TodoStore.Store.SaveTodoList requires that the list object is not already stored under another name. The menu always saves a list under the name it was loaded by. One object stored under two names, which Python allows, is not modelled.
- Task records are values. Two lists sharing one task dict, which the source never creates, are not modelled.
- The store object is not built from loaded records. `Persistence.DecodeStore` gives the entries it would hold.
- Sorting.StableSortCorrect: the algorithm behind Python's `list.sort` (Timsort) is not modelled. The model uses an insertion sort, proved to be the only stable sort by the same key.
- Queries.DueTodayReminded, Queries.DueTomorrowReminded: these state that the reminder is present. That it appears once per task is Queries.RemindersOncePerTask, which needs distinct list names, as dict keys are.
- Queries.SearchTasks, Queries.FilterTasks: a subtask label is kept as the pair (parent, position). MenuInput.LabelText gives the text the source builds from it.

## Findings

| source | as written | input that shows it | evidently intended | confidence | as-written member | corrected member |
|---|---|---|---|---|---|---|
| To-Do.py:257-262 (and 266-271) | A one-character answer is decoded as `ord(c) - 96`, the letter arithmetic meant for subtask letters, so the label "2" shown for the second task becomes -46 | Remove item, answer "2" on a list of two tasks: "Invalid index", nothing removed | Digits alone address a top-level task, as the display labels it | not executed | MenuInput.TopLevelLabelNeverReachesAsWritten | MenuInput.DecodeAddress |
| To-Do.py:259-260 | Only the first character is taken as the parent (`int(index[0])`), and the rest must be one character | Remove item, answer "10a" for the first subtask of the tenth task: `ord("0a")` raises TypeError | All leading digits form the parent position | not executed | MenuInput.MultiDigitParentFailsAsWritten | MenuInput.DecodeAddress |

# Task store of a console task-list manager

This project models the record store of a single-user task-list manager, in
Dafny. In the Python original this is the `TaskManager` class of `task.py`.
The store holds an in-memory list of `Task` records. Each record has an id,
a title, a description, a category, a due date, a priority and a status.
The status is "не выполнена" (not completed) on creation. The store has:

- five operations that change the list: add, edit, mark as completed,
  delete, and delete by category;
- four read-only queries: show (exact category), find by keyword, find by
  category substring, and find by status substring.

After every operation that changes the list, the store writes the whole list
to its file.

Layout:

- `lists.dfy` (module `Lists`) models the Python built-ins the store relies on.
  These are the conditional list comprehension (`Filter`), `next(...)` over a
  generator (`FirstIndex`), `list.remove` (`RemoveFirst`) and `in` on strings
  (`Contains`). It also proves the lemmas that connect them. `Selection(r, s, p)`
  says that `r` keeps exactly the elements of `s` that satisfy `p`, with all
  their occurrences, in the order of `s`. `SelectionIsFilter` shows this
  pins down the comprehension's result uniquely.
- `tasks.dfy` (module `Tasks`) holds the `Task` record and the keyword
  arguments of `edit_task` (`Changes`). It also states what each operation
  does to the list as a function on `seq<Task>` (`NextId`, `Edited`,
  `Deleted`, and `Filter` with `CategoryIs`), and proves the store's properties
  about those functions.
- `manager.dfy` (module `Manager`) holds the class `TaskManager`, with the
  field `tasks: seq<Task>` and the last saved snapshot `saved`. Its methods
  change the list as the Python methods do. `edit_task` sets fields one by
  one; `delete_tasks_by_category` calls `list.remove` in a loop. Each method
  is proved against the matching function of `Tasks`. The four queries are
  functions that read the object.
- `scenarios.dfy` (module `Scenarios`) replays the fixture and checks of
  `test_task_manager.py`, using only the class's contracts. It also replays
  a longer run: mark completed, delete, delete by category, then add again.
  The next id is 1 again once the list is empty.

Modelling choices:

- `str.lower` is not modelled. Python lowers by Unicode rules and the data is
  Cyrillic. The class takes the lowering function as a constructor argument
  (`const lower: string -> string`). Every property holds for any such
  function. Length preservation is not assumed, because Python's `str.lower`
  does not always preserve length.
- Loading is a constructor argument `stored: Option<seq<Task>>`. `None` stands
  for a missing file or a file that is not valid JSON; the store then starts
  empty. Saving is the assignment `saved := Some(tasks)`.
- A "not found" message becomes a returned `false` with the list unchanged.
  The original prints the message and does not raise.
- The store validates nothing and raises no not-found error. Due date,
  priority and status are the strings it is given, and no operation has a
  precondition on them. `task.py` checks no enumeration or date; those checks
  are made only in the interactive menu, which is not part of this model.
- An `edit_task` argument counts as given when it is neither `None` nor `""`
  (`Given`, Python truthiness). So an argument of `""` cannot clear a field.
  This keeps the original's behaviour.
- Ids are plain integers. The code does not keep loaded ids unique, so
  uniqueness is proved as something add, edit, delete and delete-by-category
  preserve. It is not assumed of a loaded list.

## Model

| member | source | states |
|---|---|---|
| `Lists.Filter` | task.py:124 | an element is in the comprehension's result exactly when it is in the list and satisfies the condition; the result is no longer than the list |
| `Lists.FilterIsSelection` | task.py:124 | the comprehension keeps every occurrence of each element satisfying the condition, no other element, in list order |
| `Lists.SelectionIsFilter` | task.py:60-62 | any list that keeps exactly the matching elements in order is the comprehension's result, so the query contracts determine their results |
| `Lists.FirstIndex` | task.py:84 | `next(...)` yields the first element satisfying the test, or None exactly when no element does |
| `Lists.RemoveFirst` | task.py:114 | `list.remove` drops one occurrence of the value: the length falls by one and the multiset loses exactly that value |
| `Lists.RemoveFirstAt` | task.py:112-114 | removing the first element equal to `s[i]` when no earlier element equals it removes position `i` and keeps the rest in order |
| `Lists.RemoveFirstSelected` | task.py:126-127 | removing the first matching record drops it from the front of the matches and leaves every non-matching record in place |
| `Lists.Contains` | task.py:137 | Python's `needle in hay`: the empty string is in every string, and a string is never found in a shorter one |
| `Lists.ContainsIffOccurs` | task.py:148 | `Contains` holds exactly when the needle occurs as a contiguous block at some position of the string |
| `Lists.FilterSplit` | task.py:124-127 | the matching and non-matching records together account for the whole list |
| `Tasks.Apply` | task.py:86-97 | the edited record keeps its id; each field becomes its argument when that argument is truthy and otherwise keeps its value |
| `Tasks.ApplyIdempotent` | task.py:86-97 | editing a record twice with the same arguments gives the same record as editing it once |
| `Tasks.FindById` | task.py:84 | the record `edit_task` and `delete_task` act on is the first with the id; there is none exactly when no record has the id |
| `Tasks.MaxId` | task.py:74 | `max(ids, default=0)`: at least every id, one of the ids when the list is non-empty, 0 when it is empty |
| `Tasks.NextId` | task.py:74 | the new id is greater than every id present, is not present, is 1 on an empty list, and is one more than an existing id otherwise |
| `Tasks.Edited` | task.py:84-97 | editing keeps the length; the first record with the id gets the truthy arguments and every other record is unchanged |
| `Tasks.Deleted` | task.py:112-114 | deleting removes exactly the first record with the id, keeping the others in order; an absent id leaves the list unchanged |
| `Tasks.AddKeepsIdsUnique` | task.py:74-76 | appending a record with the new id keeps ids unique |
| `Tasks.EditKeepsIds` | task.py:85-97 | an edit never changes an id, so ids stay unique |
| `Tasks.EditWithNothingGivenIsNoOp` | task.py:86-97 | an edit whose arguments are all None or "" leaves the list unchanged |
| `Tasks.EditUnknownIdIsNoOp` | task.py:84-100 | an edit of an id no record has leaves the list unchanged |
| `Tasks.MarkCompletedSetsStatus` | task.py:102-106 | marking completed sets the status of the first record with the id to "выполнена" and changes nothing else in it |
| `Tasks.DeleteRemovesId` | task.py:112-115 | on a list with unique ids, the deleted id is gone from the result and the result's ids stay unique |
| `Tasks.FilterKeepsIdsUnique` | task.py:124-127 | deleting by category keeps ids unique |
| `Tasks.DeleteByCategoryCount` | task.py:124-127 | deleting by category shortens the list by exactly the number of matching records |
| `Tasks.DeleteByCategoryNoMatch` | task.py:124-131 | with no record in the category the list is unchanged |
| `Tasks.ExactCategoryWithinSubstring` | task.py:144-148 | what the exact-match category filter of `show_tasks` selects is an order-preserving part of what the substring search selects |
| `Manager.TaskManager.constructor` | task.py:30-46 | the store starts with the loaded list, or empty when the file was missing or corrupt |
| `Manager.TaskManager.SaveTasks` | task.py:48-54 | the saved snapshot becomes the whole current list, and the list is unchanged |
| `Manager.TaskManager.AddTask` | task.py:70-77 | appends exactly one record, with the new id, the given fields and status "не выполнена"; earlier records are unchanged; ids stay unique; the list is saved |
| `Manager.TaskManager.EditTask` | task.py:80-100 | reports whether the id exists; the list becomes `Edited` of the old list; it is saved only when the id was found |
| `Manager.TaskManager.MarkAsCompleted` | task.py:102-106 | is the edit with only status "выполнена"; the first record with the id then has that status and is otherwise unchanged |
| `Manager.TaskManager.DeleteTask` | task.py:108-118 | reports whether the id exists; the list becomes `Deleted` of the old list; with unique ids the id is gone; it is saved only when found |
| `Manager.TaskManager.DeleteTasksByCategory` | task.py:120-131 | the list becomes the old list minus the category's records, in order; it shrinks by their number; unchanged and not saved when there are none; ids stay unique |
| `Manager.TaskManager.ShowTasks` | task.py:56-68 | without a truthy category every record in order; with one, exactly the records whose lowered category equals it lowered, in order |
| `Manager.TaskManager.FindTasks` | task.py:133-142 | exactly the records whose lowered title or lowered description contains the lowered keyword, in order |
| `Manager.TaskManager.FindTasksCategory` | task.py:144-153 | exactly the records whose lowered category contains the lowered fragment, in order |
| `Manager.TaskManager.FindTasksStatus` | task.py:155-164 | exactly the records whose lowered status contains the lowered fragment, in order |
| `Scenarios.LoadFixture` | test_task_manager.py:8-26 | the test fixture loads as two records, the first titled "Задача 1" and the second "выполнена" |

## Left out

- File I/O: opening, reading and writing the JSON file and `json.load`/`json.dump` are not modelled. The file's contents are a constructor argument, and saving is a snapshot assignment. So the save/load round trip and a failing write are not modelled.
- Building records from the file with `Task(**task)` is not modelled, because the loaded list is already a list of records: a record without `status` loads with status "не выполнена" (the default of task.py:13), while a record missing any other field, or carrying an extra key, makes it raise TypeError.
- Console output is not modelled: every `print` and `Task.__str__`. The queries return the records they would print, and the mutators return whether they found something.
- `str.lower` is not modelled (see above): the lowering function is a parameter of the store.
- Object identity: `edit_task` assigns fields of a shared `Task` object, and `list.remove` compares objects by identity. Records here are values. This makes no difference to the results, because each record sits in the list once and the only references are the list's own.
- main.py is not part of this model: the menu loop, the prompt-and-retry input validation and the date check.

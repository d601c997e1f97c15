/** `TaskManager` of task.py: the in-memory list of tasks, the operations
    that change it (each followed by a save) and the read-only queries. */
module Manager {
  import opened Lists
  import opened Tasks

  class TaskManager {
    /** `str.lower`, taken as given: every property below holds whatever
        lowering function the store is built with. */
    const lower: string -> string

    /** `self.tasks` */
    var tasks: seq<Task>

    /** The list as last written by `save_tasks`; None until the store has
        written it once. */
    var saved: Option<seq<Task>>

    /** `__init__` with `load_tasks`: `stored` is what the file held, None
        when it was missing or not valid JSON, in which case the store starts
        empty. */
    constructor (lower: string -> string, stored: Option<seq<Task>>)
      ensures this.lower == lower
      ensures tasks == if stored.Some? then stored.value else []
      ensures saved == None
    {
      this.lower := lower;
      tasks := if stored.Some? then stored.value else [];
      saved := None;
    }

    /** `save_tasks`: the whole list overwrites what was stored. */
    method SaveTasks()
      modifies this
      ensures tasks == old(tasks)
      ensures saved == Some(tasks)
    {
      saved := Some(tasks);
    }

    /** `add_task`: appends a record with a fresh id and status
        "не выполнена", then saves. */
    method AddTask(title: string, description: string, category: string, dueDate: string, priority: string)
      modifies this
      ensures tasks == old(tasks) + [Task(NextId(old(tasks)), title, description, category, dueDate, priority, NotCompleted)]
      ensures UniqueIds(old(tasks)) ==> UniqueIds(tasks)
      ensures saved == Some(tasks)
    {
      var taskId := MaxId(tasks) + 1;
      var newTask := Task(taskId, title, description, category, dueDate, priority, NotCompleted);
      if UniqueIds(tasks) {
        AddKeepsIdsUnique(tasks, newTask);
      }
      tasks := tasks + [newTask];
      SaveTasks();
    }

    /** `edit_task`: the first record with the id gets every truthy argument;
        `found` is false, and nothing changes, when no record has the id. */
    method EditTask(taskId: int, changes: Changes) returns (found: bool)
      modifies this
      ensures found == HasId(old(tasks), taskId)
      ensures tasks == Edited(old(tasks), taskId, changes)
      ensures saved == if found then Some(tasks) else old(saved)
    {
      var k := FindById(tasks, taskId);
      found := k.Some?;
      if found {
        var task := tasks[k.value];
        if Given(changes.title) {
          task := task.(title := changes.title.value);
        }
        if Given(changes.description) {
          task := task.(description := changes.description.value);
        }
        if Given(changes.category) {
          task := task.(category := changes.category.value);
        }
        if Given(changes.dueDate) {
          task := task.(dueDate := changes.dueDate.value);
        }
        if Given(changes.priority) {
          task := task.(priority := changes.priority.value);
        }
        if Given(changes.status) {
          task := task.(status := changes.status.value);
        }
        tasks := tasks[k.value := task];
        SaveTasks();
      }
    }

    /** `mark_as_completed`: `edit_task(task_id, status="выполнена")`. */
    method MarkAsCompleted(taskId: int) returns (found: bool)
      modifies this
      ensures found == HasId(old(tasks), taskId)
      ensures tasks == Edited(old(tasks), taskId, MarkCompleted)
      ensures forall k :: FirstWithId(old(tasks), taskId, k) ==> tasks[k] == old(tasks)[k].(status := Completed)
      ensures saved == if found then Some(tasks) else old(saved)
    {
      ghost var before := tasks;
      found := EditTask(taskId, MarkCompleted);
      forall k | FirstWithId(before, taskId, k)
        ensures tasks[k] == before[k].(status := Completed)
      {
        MarkCompletedSetsStatus(before, taskId, k);
      }
    }

    /** `delete_task`: removes the first record with the id; `found` is
        false, and nothing changes, when no record has it. */
    method DeleteTask(taskId: int) returns (found: bool)
      modifies this
      ensures found == HasId(old(tasks), taskId)
      ensures tasks == Deleted(old(tasks), taskId)
      ensures UniqueIds(old(tasks)) ==> UniqueIds(tasks) && !HasId(tasks, taskId)
      ensures saved == if found then Some(tasks) else old(saved)
    {
      if UniqueIds(tasks) {
        DeleteRemovesId(tasks, taskId);
      }
      var k := FindById(tasks, taskId);
      found := k.Some?;
      if found {
        var taskToRemove := tasks[k.value];
        tasks := RemoveFirst(tasks, taskToRemove);
        SaveTasks();
      }
    }

    /** `delete_tasks_by_category`: removes, one `list.remove` at a time,
        every record whose lowered category equals the lowered argument;
        `removed` is false, and nothing changes, when none does. */
    method DeleteTasksByCategory(category: string) returns (removed: bool)
      modifies this
      ensures removed == (Filter(CategoryIs(lower, category), old(tasks)) != [])
      ensures tasks == Filter(Not(CategoryIs(lower, category)), old(tasks))
      ensures |tasks| == |old(tasks)| - |Filter(CategoryIs(lower, category), old(tasks))|
      ensures !removed ==> tasks == old(tasks)
      ensures UniqueIds(old(tasks)) ==> UniqueIds(tasks)
      ensures saved == if removed then Some(tasks) else old(saved)
    {
      var matches := CategoryIs(lower, category);
      DeleteByCategoryCount(lower, tasks, category);
      if UniqueIds(tasks) {
        FilterKeepsIdsUnique(Not(matches), tasks);
      }
      var tasksToRemove := Filter(matches, tasks);
      removed := tasksToRemove != [];
      if !removed {
        DeleteByCategoryNoMatch(lower, tasks, category);
      } else {
        var i := 0;
        while i < |tasksToRemove|
          invariant 0 <= i <= |tasksToRemove|
          invariant Filter(matches, tasks) == tasksToRemove[i..]
          invariant Filter(Not(matches), tasks) == Filter(Not(matches), old(tasks))
        {
          RemoveFirstSelected(matches, tasks);
          tasks := RemoveFirst(tasks, tasksToRemove[i]);
          i := i + 1;
        }
        DeleteByCategoryNoMatch(lower, tasks, category);
        SaveTasks();
      }
    }

    /** `show_tasks`: every record, or with a truthy category only those
        whose lowered category equals it lowered, in list order. */
    function ShowTasks(category: Option<string>): (r: seq<Task>)
      reads this
      ensures IsSubsequence(r, tasks)
      ensures forall t :: t in r <==> t in tasks && (Given(category) ==> lower(t.category) == lower(category.value))
      ensures !Given(category) ==> r == tasks
      ensures Given(category) ==> Selection(r, tasks, CategoryIs(lower, category.value))
    {
      if Given(category) then
        FilterIsSelection(CategoryIs(lower, category.value), tasks);
        Filter(CategoryIs(lower, category.value), tasks)
      else
        SubsequenceReflexive(tasks);
        tasks
    }

    /** `find_tasks`: the records whose lowered title or description contains
        the lowered keyword, in list order. */
    function FindTasks(query: string): (r: seq<Task>)
      reads this
      ensures Selection(r, tasks, Mentions(lower, query))
      ensures forall t :: t in r <==>
        (t in tasks && (Contains(lower(t.title), lower(query)) || Contains(lower(t.description), lower(query))))
    {
      FilterIsSelection(Mentions(lower, query), tasks);
      Filter(Mentions(lower, query), tasks)
    }

    /** `find_tasks_category`: the records whose lowered category contains the
        lowered fragment, in list order. */
    function FindTasksCategory(category: string): (r: seq<Task>)
      reads this
      ensures Selection(r, tasks, CategoryMentions(lower, category))
      ensures forall t :: t in r <==> t in tasks && Contains(lower(t.category), lower(category))
    {
      FilterIsSelection(CategoryMentions(lower, category), tasks);
      Filter(CategoryMentions(lower, category), tasks)
    }

    /** `find_tasks_status`: the records whose lowered status contains the
        lowered fragment, in list order. */
    function FindTasksStatus(status: string): (r: seq<Task>)
      reads this
      ensures Selection(r, tasks, StatusMentions(lower, status))
      ensures forall t :: t in r <==> t in tasks && Contains(lower(t.status), lower(status))
    {
      FilterIsSelection(StatusMentions(lower, status), tasks);
      Filter(StatusMentions(lower, status), tasks)
    }
  }
}

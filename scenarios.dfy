/** The fixture and the checks of test_task_manager.py, run against the
    contracts of TaskManager: two records loaded from the file, then one
    operation each. The only thing assumed of `str.lower` is what these
    Cyrillic strings need. */
module Scenarios {
  import opened Lists
  import opened Tasks
  import opened Manager

  function Fixture(): seq<Task> {
    [Task(1, "Задача 1", "Описание 1", "Категория 1", "2024-12-31", "низкий", NotCompleted),
     Task(2, "Задача 2", "Описание 2", "Категория 2", "2024-11-30", "средний", Completed)]
  }

  method LoadFixture(lower: string -> string) returns (m: TaskManager)
    ensures fresh(m) && m.lower == lower && m.tasks == Fixture()
  {
    m := new TaskManager(lower, Some(Fixture()));
    assert |m.tasks| == 2 && m.tasks[0].title == "Задача 1" && m.tasks[1].status == "выполнена";
  }

  method AddToFixture(lower: string -> string) {
    var m := LoadFixture(lower);
    m.AddTask("Задача 3", "Описание 3", "категория 3", "2025-01-01", "высокий");
    assert |m.tasks| == 3 && m.tasks[2].title == "Задача 3";
    assert m.tasks[2].id == 3 && m.tasks[2].status == NotCompleted;
  }

  method EditFixture(lower: string -> string) {
    var m := LoadFixture(lower);
    var found := m.EditTask(1, NoChanges.(title := Some("Обновленная задача"), description := Some("Обновленное описание")));
    assert FirstWithId(Fixture(), 1, 0);
    assert found;
    assert m.tasks[0].title == "Обновленная задача" && m.tasks[0].description == "Обновленное описание";
    assert m.tasks[0].category == "Категория 1" && m.tasks[1] == Fixture()[1];
  }

  method MarkFixture(lower: string -> string) {
    var m := LoadFixture(lower);
    assert FirstWithId(Fixture(), 1, 0);
    var found := m.MarkAsCompleted(1);
    assert found && m.tasks[0].status == "выполнена";
  }

  method DeleteFromFixture(lower: string -> string) {
    var m := LoadFixture(lower);
    assert FirstWithId(Fixture(), 1, 0);
    var found := m.DeleteTask(1);
    assert found && |m.tasks| == 1 && m.tasks[0].title == "Задача 2";
    var again := m.DeleteTask(1);
    assert !again && |m.tasks| == 1;
  }

  method DeleteCategoryFromFixture(lower: string -> string)
    requires lower("Категория 1") == lower("категория 1") != lower("Категория 2")
  {
    var m := LoadFixture(lower);
    var removed := m.DeleteTasksByCategory("категория 1");
    assert Filter(CategoryIs(lower, "категория 1"), Fixture()) == [Fixture()[0]];
    assert removed && |m.tasks| == 1 && m.tasks[0].id == 2;
  }

  /** Mark record 1 completed, delete record 2, delete category
      "категория 1": the list is empty and the next id is 1 again. */
  method EmptyAndRestart(lower: string -> string)
    requires lower("Категория 1") == lower("категория 1")
  {
    var m := LoadFixture(lower);
    assert FirstWithId(Fixture(), 1, 0);
    var marked := m.MarkAsCompleted(1);
    assert m.tasks[0].status == Completed;
    assert FirstWithId(m.tasks, 2, 1);
    var deleted := m.DeleteTask(2);
    assert |m.tasks| == 1 && m.tasks[0].id == 1;
    var removed := m.DeleteTasksByCategory("категория 1");
    assert m.tasks == [];
    m.AddTask("Задача", "Описание", "Категория", "2025-01-01", "низкий");
    assert m.tasks[0].id == 1;
  }
}

/** The task record of task.py and what each operation of its TaskManager
    does to the list of records, stated as functions on `seq<Task>`. The class
    in manager.dfy is proved against these functions; the lemmas here are the
    properties the store promises. */
module Tasks {
  import opened Lists

  /** The two values of `TaskStatus`. */
  const NotCompleted: string := "не выполнена"
  const Completed: string := "выполнена"

  /** One task. The store validates nothing, so the date, priority and
      status are the strings it was given. */
  datatype Task = Task(
    id: int,
    title: string,
    description: string,
    category: string,
    dueDate: string,
    priority: string,
    status: string)

  /** The keyword arguments of `edit_task`; each defaults to None. */
  datatype Changes = Changes(
    title: Option<string>,
    description: Option<string>,
    category: Option<string>,
    dueDate: Option<string>,
    priority: Option<string>,
    status: Option<string>)

  const NoChanges: Changes := Changes(None, None, None, None, None, None)

  /** What `mark_as_completed` passes on to `edit_task`. */
  const MarkCompleted: Changes := NoChanges.(status := Some(Completed))

  /** Python truthiness of an optional string argument: neither None nor "". */
  predicate Given(arg: Option<string>) {
    arg.Some? && arg.value != ""
  }

  function Update(arg: Option<string>, current: string): string {
    if Given(arg) then arg.value else current
  }

  /** The record after `edit_task`'s field assignments: each truthy argument
      replaces its field. */
  function Apply(t: Task, c: Changes): (r: Task)
    ensures r.id == t.id
    ensures r.title == (if Given(c.title) then c.title.value else t.title)
    ensures r.description == (if Given(c.description) then c.description.value else t.description)
    ensures r.category == (if Given(c.category) then c.category.value else t.category)
    ensures r.dueDate == (if Given(c.dueDate) then c.dueDate.value else t.dueDate)
    ensures r.priority == (if Given(c.priority) then c.priority.value else t.priority)
    ensures r.status == (if Given(c.status) then c.status.value else t.status)
  {
    t.(title := Update(c.title, t.title),
       description := Update(c.description, t.description),
       category := Update(c.category, t.category),
       dueDate := Update(c.dueDate, t.dueDate),
       priority := Update(c.priority, t.priority),
       status := Update(c.status, t.status))
  }

  // ------------------------------------------------------------------ ids

  predicate HasId(ts: seq<Task>, id: int) {
    exists i :: 0 <= i < |ts| && ts[i].id == id
  }

  predicate UniqueIds(ts: seq<Task>) {
    forall i, j :: 0 <= i < j < |ts| ==> ts[i].id != ts[j].id
  }

  /** `k` is the record `next(task for task in tasks if task.id == id)` yields. */
  predicate FirstWithId(ts: seq<Task>, id: int, k: int) {
    && 0 <= k < |ts|
    && ts[k].id == id
    && forall j :: 0 <= j < k ==> ts[j].id != id
  }

  function IdIs(id: int): Task -> bool {
    (t: Task) => t.id == id
  }

  /** The position of the record `edit_task` and `delete_task` act on. */
  function FindById(ts: seq<Task>, id: int): (r: Option<nat>)
    ensures r.None? <==> !HasId(ts, id)
    ensures r.Some? ==> FirstWithId(ts, id, r.value)
  {
    FirstIndex(IdIs(id), ts)
  }

  /** `max([task.id for task in tasks], default=0)` */
  function MaxId(ts: seq<Task>): (m: int)
    ensures forall i :: 0 <= i < |ts| ==> ts[i].id <= m
    ensures |ts| > 0 ==> HasId(ts, m)
    ensures |ts| == 0 ==> m == 0
  {
    if |ts| == 0 then 0
    else if |ts| == 1 then ts[0].id
    else
      var m := MaxId(ts[1..]);
      assert forall i :: 1 <= i < |ts| ==> ts[i] == ts[1..][i - 1];
      if ts[0].id >= m then ts[0].id else m
  }

  /** The id `add_task` gives the new record. */
  function NextId(ts: seq<Task>): (r: int)
    ensures forall i :: 0 <= i < |ts| ==> ts[i].id < r
    ensures !HasId(ts, r)
    ensures |ts| == 0 ==> r == 1
    ensures |ts| > 0 ==> HasId(ts, r - 1)
  {
    MaxId(ts) + 1
  }

  // ------------------------------------------------------------ mutations

  /** The list after `edit_task(id, ...)`: the first record with that id is
      edited, every other record stays as it was. */
  function Edited(ts: seq<Task>, id: int, c: Changes): (r: seq<Task>)
    ensures |r| == |ts|
    ensures forall k :: 0 <= k < |ts| ==>
      r[k] == if FirstWithId(ts, id, k) then Apply(ts[k], c) else ts[k]
  {
    match FindById(ts, id)
    case None => ts
    case Some(k) => ts[k := Apply(ts[k], c)]
  }

  /** The list after `delete_task(id)`, which hands the first record with that
      id to `list.remove`: that record alone is gone, the rest keep their
      order. */
  function Deleted(ts: seq<Task>, id: int): (r: seq<Task>)
    ensures !HasId(ts, id) ==> r == ts
    ensures HasId(ts, id) ==> |r| == |ts| - 1
    ensures forall k :: FirstWithId(ts, id, k) ==> r == ts[..k] + ts[k + 1..]
  {
    match FindById(ts, id)
    case None => ts
    case Some(k) =>
      RemoveFirstAt(ts, k);
      RemoveFirst(ts, ts[k])
  }

  // -------------------------------------------------------------- filters

  /** The test of `show_tasks` and `delete_tasks_by_category`:
      `task.category.lower() == category.lower()`. */
  function CategoryIs(lower: string -> string, category: string): Task -> bool {
    (t: Task) => lower(t.category) == lower(category)
  }

  /** The test of `find_tasks`: the keyword occurs in the title or the
      description, both lowered. */
  function Mentions(lower: string -> string, query: string): Task -> bool {
    (t: Task) => Contains(lower(t.title), lower(query)) || Contains(lower(t.description), lower(query))
  }

  /** The test of `find_tasks_category`. */
  function CategoryMentions(lower: string -> string, fragment: string): Task -> bool {
    (t: Task) => Contains(lower(t.category), lower(fragment))
  }

  /** The test of `find_tasks_status`. */
  function StatusMentions(lower: string -> string, fragment: string): Task -> bool {
    (t: Task) => Contains(lower(t.status), lower(fragment))
  }

  // --------------------------------------------------------------- lemmas

  /** The new record's id is fresh, so adding keeps ids unique. */
  lemma AddKeepsIdsUnique(ts: seq<Task>, t: Task)
    requires UniqueIds(ts)
    requires t.id == NextId(ts)
    ensures UniqueIds(ts + [t])
  {
  }

  /** Editing a record twice with the same arguments is editing it once. */
  lemma ApplyIdempotent(t: Task, c: Changes)
    ensures Apply(Apply(t, c), c) == Apply(t, c)
  {
  }

  /** An edit changes no id, so it keeps ids unique. */
  lemma EditKeepsIds(ts: seq<Task>, id: int, c: Changes)
    ensures forall k :: 0 <= k < |ts| ==> Edited(ts, id, c)[k].id == ts[k].id
    ensures UniqueIds(ts) ==> UniqueIds(Edited(ts, id, c))
  {
  }

  /** Arguments that are all None or "" leave the list as it is. */
  lemma EditWithNothingGivenIsNoOp(ts: seq<Task>, id: int, c: Changes)
    requires !Given(c.title) && !Given(c.description) && !Given(c.category)
    requires !Given(c.dueDate) && !Given(c.priority) && !Given(c.status)
    ensures Edited(ts, id, c) == ts
  {
  }

  /** An unknown id leaves the list as it is. */
  lemma EditUnknownIdIsNoOp(ts: seq<Task>, id: int, c: Changes)
    requires !HasId(ts, id)
    ensures Edited(ts, id, c) == ts
  {
  }

  /** `mark_as_completed` sets the status of the first record with the id
      to "выполнена" and touches nothing else of it. */
  lemma MarkCompletedSetsStatus(ts: seq<Task>, id: int, k: int)
    requires FirstWithId(ts, id, k)
    ensures Edited(ts, id, MarkCompleted)[k] == ts[k].(status := Completed)
  {
  }

  /** Deleting from a list with unique ids removes the id altogether and
      keeps the rest unique. */
  lemma DeleteRemovesId(ts: seq<Task>, id: int)
    requires UniqueIds(ts)
    ensures !HasId(Deleted(ts, id), id)
    ensures UniqueIds(Deleted(ts, id))
  {
  }

  /** A filtered list keeps ids unique. */
  lemma {:induction false} FilterKeepsIdsUnique(p: Task -> bool, ts: seq<Task>)
    requires UniqueIds(ts)
    ensures UniqueIds(Filter(p, ts))
  {
    if |ts| > 0 {
      var tail := ts[1..];
      var rest := Filter(p, tail);
      FilterKeepsIdsUnique(p, tail);
      if p(ts[0]) {
        forall x | x in rest ensures x.id != ts[0].id {
          var m :| 0 <= m < |tail| && tail[m] == x;
          assert x == ts[m + 1];
        }
        ConsKeepsIdsUnique(ts[0], rest);
      }
    }
  }

  lemma ConsKeepsIdsUnique(t: Task, ts: seq<Task>)
    requires UniqueIds(ts)
    requires forall x :: x in ts ==> x.id != t.id
    ensures UniqueIds([t] + ts)
  {
  }

  /** `delete_tasks_by_category` removes as many records as match. */
  lemma {:induction false} DeleteByCategoryCount(lower: string -> string, ts: seq<Task>, category: string)
    ensures |Filter(Not(CategoryIs(lower, category)), ts)|
         == |ts| - |Filter(CategoryIs(lower, category), ts)|
  {
    FilterSplit(CategoryIs(lower, category), ts);
  }

  /** With no record in the category, `delete_tasks_by_category` keeps
      everything. */
  lemma {:induction false} DeleteByCategoryNoMatch(lower: string -> string, ts: seq<Task>, category: string)
    requires Filter(CategoryIs(lower, category), ts) == []
    ensures Filter(Not(CategoryIs(lower, category)), ts) == ts
  {
    forall i | 0 <= i < |ts| ensures Not(CategoryIs(lower, category))(ts[i]) {
      assert ts[i] !in Filter(CategoryIs(lower, category), ts);
    }
    FilterKeepsAll(Not(CategoryIs(lower, category)), ts);
  }

  /** `show_tasks(category)` (exact match) selects, in order, part of what
      `find_tasks_category(category)` (substring match) selects. */
  lemma {:induction false} ExactCategoryWithinSubstring(lower: string -> string, ts: seq<Task>, category: string)
    ensures IsSubsequence(Filter(CategoryIs(lower, category), ts),
                          Filter(CategoryMentions(lower, category), ts))
  {
    forall t: Task | CategoryIs(lower, category)(t)
      ensures CategoryMentions(lower, category)(t)
    {
      ContainsItself(lower(t.category));
    }
    FilterMonotone(CategoryIs(lower, category), CategoryMentions(lower, category), ts);
  }
}

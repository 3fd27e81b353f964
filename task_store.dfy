// The task store of src/contexts/TaskContext.tsx: the seed data, the pure
// list transformations each operation hands to setTasks / setCategories,
// and the provider itself as an object with two list fields.
//
// Ids come from Date.now() and are not guaranteed unique, so every
// operation is specified for all tasks (or categories) carrying the id.
module TaskStore {
  import opened TaskTypes
  import Seqs
  import Text

  const Day := 86400000

  // ---------------------------------------------------------------- seed

  function DefaultCategories(): seq<Category>
  {
    [ Category("1", "Work", "#4299E1"),
      Category("2", "Personal", "#ED8936"),
      Category("3", "Learning", "#38B2AC"),
      Category("4", "Health", "#9F7AEA") ]
  }

  /** The built-in tasks; `now` is the instant the module is loaded. */
  function DefaultTasks(now: int): seq<Task>
  {
    var c := DefaultCategories();
    [ Task("1", "Complete project proposal",
           Some("Finish the quarterly project proposal for the management team"),
           false, High, Some(c[0]), Some(now + Day * 2), now),
      Task("2", "Schedule dentist appointment",
           Some("Call the dentist office to schedule a routine cleaning"),
           true, Medium, Some(c[1]), None, now - Day),
      Task("3", "Complete React tutorial",
           Some("Finish the advanced React hooks tutorial"),
           false, Medium, Some(c[2]), Some(now + Day * 5), now),
      Task("4", "Go for a 30-minute run",
           Some("Complete a 30-minute jogging session in the park"),
           false, Low, Some(c[3]), Some(now), now) ]
  }

  /** The shape of the seed: four categories "1".."4", one task per category. */
  lemma SeedShape(now: int)
    ensures var cs, ts := DefaultCategories(), DefaultTasks(now);
      && |cs| == 4 && |ts| == 4
      && (forall i :: 0 <= i < 4 ==> cs[i].id == ["1234"[i]] && ts[i].id == cs[i].id)
      && (forall i :: 0 <= i < 4 ==> ts[i].category == Some(cs[i]))
      && [ts[0].priority, ts[1].priority, ts[2].priority, ts[3].priority] == [High, Medium, Medium, Low]
      && (forall t :: t in ts ==> (t.completed <==> t.id == "2"))
      && Consistent(ts, cs)
  {
    var cs, ts := DefaultCategories(), DefaultTasks(now);
    assert forall t :: t in ts ==> t == ts[0] || t == ts[1] || t == ts[2] || t == ts[3];
    forall t | t in ts
      ensures !Text.IsBlank(t.title) && t.category.Some? && t.category.value in cs
    {
      assert !Text.IsSpace(t.title[0]);
    }
  }

  // ---------------------------------------------------- store invariant

  /**
   * What the application keeps true of the store: every title is non-blank
   * and every task's category is one of the store's categories (so none is
   * left dangling after a category is deleted).
   */
  ghost predicate Consistent(tasks: seq<Task>, categories: seq<Category>)
  {
    forall t :: t in tasks ==>
      !Text.IsBlank(t.title) && (t.category.Some? ==> t.category.value in categories)
  }

  // ------------------------------------------------------------- addTask

  /** The fields of a task a caller supplies to addTask. */
  function DraftOf(t: Task): TaskDraft
  {
    TaskDraft(t.title, t.description, t.completed, t.priority, t.category, t.dueDate)
  }

  /** `{ ...task, id, createdAt }`: the draft with an id and a creation time. */
  function NewTask(draft: TaskDraft, id: string, now: int): (t: Task)
    ensures DraftOf(t) == draft && t.id == id && t.createdAt == now
  {
    Task(id, draft.title, draft.description, draft.completed, draft.priority,
         draft.category, draft.dueDate, now)
  }

  /** Every task is the task built from its own draft, id and creation time. */
  lemma NewTaskOfDraft(t: Task)
    ensures NewTask(DraftOf(t), t.id, t.createdAt) == t
  {
  }

  /** `[newTask, ...prev]`. */
  function AddedTask(tasks: seq<Task>, draft: TaskDraft, id: string, now: int): (r: seq<Task>)
    ensures |r| == |tasks| + 1 && r[1..] == tasks
    ensures r[0].id == id && r[0].createdAt == now && DraftOf(r[0]) == draft
  {
    [NewTask(draft, id, now)] + tasks
  }

  lemma AddTaskKeepsConsistent(tasks: seq<Task>, categories: seq<Category>,
                               draft: TaskDraft, id: string, now: int)
    requires Consistent(tasks, categories)
    requires !Text.IsBlank(draft.title)
    requires draft.category.Some? ==> draft.category.value in categories
    ensures Consistent(AddedTask(tasks, draft, id, now), categories)
  {
    var r := AddedTask(tasks, draft, id, now);
    forall t | t in r
      ensures !Text.IsBlank(t.title) && (t.category.Some? ==> t.category.value in categories)
    {
      if t != r[0] {
        assert t in r[1..];
      }
    }
  }

  // ---------------------------------------------------------- updateTask

  /** `{ ...task, ...updatedTask }`: every key present in the patch wins. */
  function Merge(t: Task, p: TaskPatch): (r: Task)
    ensures r.id == (if p.id.Some? then p.id.value else t.id)
    ensures r.title == (if p.title.Some? then p.title.value else t.title)
    ensures r.description == (if p.description.Some? then p.description.value else t.description)
    ensures r.completed == (if p.completed.Some? then p.completed.value else t.completed)
    ensures r.priority == (if p.priority.Some? then p.priority.value else t.priority)
    ensures r.category == (if p.category.Some? then p.category.value else t.category)
    ensures r.dueDate == (if p.dueDate.Some? then p.dueDate.value else t.dueDate)
    ensures r.createdAt == (if p.createdAt.Some? then p.createdAt.value else t.createdAt)
  {
    Task(
      Override(t.id, p.id),
      Override(t.title, p.title),
      Override(t.description, p.description),
      Override(t.completed, p.completed),
      Override(t.priority, p.priority),
      Override(t.category, p.category),
      Override(t.dueDate, p.dueDate),
      Override(t.createdAt, p.createdAt))
  }

  function Override<V>(current: V, given: Option<V>): V
  {
    match given
    case Some(v) => v
    case None => current
  }

  /** Merging the empty patch changes nothing. */
  lemma MergeNoChanges(t: Task)
    ensures Merge(t, NoChanges) == t
  {
  }

  /** Merging the same patch twice is merging it once. */
  lemma MergeIdempotent(t: Task, p: TaskPatch)
    ensures Merge(Merge(t, p), p) == Merge(t, p)
  {
  }

  /** `prev.map(task => task.id === id ? { ...task, ...updatedTask } : task)`. */
  function UpdatedTasks(tasks: seq<Task>, id: string, patch: TaskPatch): (r: seq<Task>)
    ensures |r| == |tasks|
    ensures forall i :: 0 <= i < |tasks| && tasks[i].id != id ==> r[i] == tasks[i]
    ensures forall i :: 0 <= i < |tasks| && tasks[i].id == id ==> r[i] == Merge(tasks[i], patch)
  {
    Seqs.Map((t: Task) => if t.id == id then Merge(t, patch) else t, tasks)
  }

  /** An id no task carries leaves the list as it was. */
  lemma UpdateUnknownId(tasks: seq<Task>, id: string, patch: TaskPatch)
    requires forall t :: t in tasks ==> t.id != id
    ensures UpdatedTasks(tasks, id, patch) == tasks
  {
    var r := UpdatedTasks(tasks, id, patch);
    assert forall i :: 0 <= i < |tasks| ==> r[i] == tasks[i];
  }

  lemma UpdateTaskKeepsConsistent(tasks: seq<Task>, categories: seq<Category>,
                                  id: string, patch: TaskPatch)
    requires Consistent(tasks, categories)
    requires patch.title.Some? ==> !Text.IsBlank(patch.title.value)
    requires patch.category.Some? && patch.category.value.Some? ==>
               patch.category.value.value in categories
    ensures Consistent(UpdatedTasks(tasks, id, patch), categories)
  {
    var r := UpdatedTasks(tasks, id, patch);
    forall t | t in r
      ensures !Text.IsBlank(t.title) && (t.category.Some? ==> t.category.value in categories)
    {
      var i :| 0 <= i < |r| && r[i] == t;
      assert tasks[i] in tasks;
    }
  }

  // ---------------------------------------------------------- deleteTask

  /** `prev.filter(task => task.id !== id)`. */
  function DeletedTasks(tasks: seq<Task>, id: string): (r: seq<Task>)
    ensures forall t :: t in r ==> t.id != id
    ensures forall t :: multiset(r)[t] == if t.id == id then 0 else multiset(tasks)[t]
    ensures Seqs.IsSubsequence(r, tasks)
  {
    var keep := (t: Task) => t.id != id;
    Seqs.FilterCount(keep, tasks);
    Seqs.FilterIsSubsequence(keep, tasks);
    Seqs.Filter(keep, tasks)
  }

  /** An id no task carries leaves the list as it was. */
  lemma DeleteUnknownId(tasks: seq<Task>, id: string)
    requires forall t :: t in tasks ==> t.id != id
    ensures DeletedTasks(tasks, id) == tasks
  {
    Seqs.FilterKeepsAll((t: Task) => t.id != id, tasks);
  }

  lemma DeleteTaskKeepsConsistent(tasks: seq<Task>, categories: seq<Category>, id: string)
    requires Consistent(tasks, categories)
    ensures Consistent(DeletedTasks(tasks, id), categories)
  {
    var r := DeletedTasks(tasks, id);
    assert forall t :: t in r ==> multiset(tasks)[t] > 0;
  }

  // ------------------------------------------------- toggleTaskCompletion

  /** `prev.map(task => task.id === id ? { ...task, completed: !task.completed } : task)`. */
  function ToggledTasks(tasks: seq<Task>, id: string): (r: seq<Task>)
    ensures |r| == |tasks|
    ensures forall i :: 0 <= i < |tasks| ==>
              r[i].(completed := tasks[i].completed) == tasks[i]
              && (r[i].completed != tasks[i].completed <==> tasks[i].id == id)
  {
    Seqs.Map((t: Task) => if t.id == id then t.(completed := !t.completed) else t, tasks)
  }

  /** Toggling the same id twice restores the list. */
  lemma ToggleTwice(tasks: seq<Task>, id: string)
    ensures ToggledTasks(ToggledTasks(tasks, id), id) == tasks
  {
    var once := ToggledTasks(tasks, id);
    var twice := ToggledTasks(once, id);
    forall i | 0 <= i < |tasks|
      ensures twice[i] == tasks[i]
    {
      assert once[i].id == tasks[i].id;
    }
  }

  lemma ToggleKeepsConsistent(tasks: seq<Task>, categories: seq<Category>, id: string)
    requires Consistent(tasks, categories)
    ensures Consistent(ToggledTasks(tasks, id), categories)
  {
    var r := ToggledTasks(tasks, id);
    forall t | t in r
      ensures !Text.IsBlank(t.title) && (t.category.Some? ==> t.category.value in categories)
    {
      var i :| 0 <= i < |r| && r[i] == t;
      assert tasks[i] in tasks;
    }
  }

  // ---------------------------------------------------------- addCategory

  /** `{ ...category, id }`. */
  function NewCategory(draft: CategoryDraft, id: string): (c: Category)
    ensures CategoryDraft(c.name, c.color) == draft && c.id == id
  {
    Category(id, draft.name, draft.color)
  }

  /** `[...prev, newCategory]`. */
  function AddedCategory(categories: seq<Category>, draft: CategoryDraft, id: string): (r: seq<Category>)
    ensures |r| == |categories| + 1 && r[..|categories|] == categories
    ensures r[|categories|] == NewCategory(draft, id)
  {
    categories + [NewCategory(draft, id)]
  }

  lemma AddCategoryKeepsConsistent(tasks: seq<Task>, categories: seq<Category>,
                                   draft: CategoryDraft, id: string)
    requires Consistent(tasks, categories)
    ensures Consistent(tasks, AddedCategory(categories, draft, id))
  {
    var r := AddedCategory(categories, draft, id);
    assert forall c :: c in categories ==> c in r;
  }

  // ------------------------------------------------------- deleteCategory

  predicate HasCategory(t: Task, id: string)
  {
    t.category.Some? && t.category.value.id == id
  }

  /** `prev.map(task => task.category?.id === id ? { ...task, category: undefined } : task)`. */
  function UncategorizedTasks(tasks: seq<Task>, id: string): (r: seq<Task>)
    ensures |r| == |tasks|
    ensures forall t :: t in r ==> !HasCategory(t, id)
    ensures forall i :: 0 <= i < |tasks| && !HasCategory(tasks[i], id) ==> r[i] == tasks[i]
    ensures forall i :: 0 <= i < |tasks| && HasCategory(tasks[i], id) ==>
              r[i] == tasks[i].(category := None)
  {
    Seqs.Map((t: Task) => if HasCategory(t, id) then t.(category := None) else t, tasks)
  }

  /** `prev.filter(category => category.id !== id)`. */
  function RemovedCategories(categories: seq<Category>, id: string): (r: seq<Category>)
    ensures forall c :: c in r ==> c.id != id
    ensures forall c :: multiset(r)[c] == if c.id == id then 0 else multiset(categories)[c]
    ensures Seqs.IsSubsequence(r, categories)
  {
    var keep := (c: Category) => c.id != id;
    Seqs.FilterCount(keep, categories);
    Seqs.FilterIsSubsequence(keep, categories);
    Seqs.Filter(keep, categories)
  }

  /**
   * Deleting a category leaves no dangling reference: if every task's
   * category was in the list before, it still is after both updates.
   */
  lemma DeleteCategoryKeepsConsistent(tasks: seq<Task>, categories: seq<Category>, id: string)
    requires Consistent(tasks, categories)
    ensures Consistent(UncategorizedTasks(tasks, id), RemovedCategories(categories, id))
  {
    var ts, cs := UncategorizedTasks(tasks, id), RemovedCategories(categories, id);
    forall t | t in ts
      ensures !Text.IsBlank(t.title) && (t.category.Some? ==> t.category.value in cs)
    {
      var i :| 0 <= i < |ts| && ts[i] == t;
      assert tasks[i] in tasks;
      if t.category.Some? {
        assert multiset(cs)[t.category.value] == multiset(categories)[t.category.value] > 0;
      }
    }
  }

  // ---------------------------------------------------------- round trip

  /**
   * Creating a task and then renaming it by its id yields the created task
   * with only the title changed, provided the id was fresh; deleting it
   * afterwards leaves no task with that id.
   */
  lemma {:induction false} AddRenameDelete(tasks: seq<Task>, draft: TaskDraft, id: string, now: int,
                                           title: string)
    requires forall t :: t in tasks ==> t.id != id
    ensures var added := AddedTask(tasks, draft, id, now);
            var renamed := UpdatedTasks(added, id, NoChanges.(title := Some(title)));
            && renamed == [NewTask(draft, id, now).(title := title)] + tasks
            && DeletedTasks(renamed, id) == tasks
  {
    var added := AddedTask(tasks, draft, id, now);
    var renamed := UpdatedTasks(added, id, NoChanges.(title := Some(title)));
    var expected := [NewTask(draft, id, now).(title := title)] + tasks;
    forall i | 0 <= i < |renamed|
      ensures renamed[i] == expected[i]
    {
      if i > 0 {
        assert added[i] == tasks[i - 1];
        assert tasks[i - 1] in tasks;
      }
    }
    assert renamed == expected;
    Seqs.FilterAppend((t: Task) => t.id != id, [expected[0]], tasks);
    DeleteUnknownId(tasks, id);
    assert DeletedTasks([expected[0]], id) == [];
  }

  // ----------------------------------------------------------- provider

  /** The provider's state: the two lists behind useState. */
  class Store {
    var tasks: seq<Task>
    var categories: seq<Category>

    ghost predicate Valid()
      reads this
    {
      Consistent(tasks, categories)
    }

    /** The provider starts from the seed. */
    constructor (now: int)
      ensures Valid()
      ensures tasks == DefaultTasks(now) && categories == DefaultCategories()
    {
      tasks := DefaultTasks(now);
      categories := DefaultCategories();
      SeedShape(now);
    }

    /**
     * addTask. `id` and `now` stand for Date.now().toString() and new Date().
     * The form only submits a non-blank title and a category it found in
     * the store's list.
     */
    method AddTask(draft: TaskDraft, id: string, now: int)
      requires Valid()
      requires !Text.IsBlank(draft.title)
      requires draft.category.Some? ==> draft.category.value in categories
      modifies this
      ensures Valid()
      ensures tasks == [NewTask(draft, id, now)] + old(tasks)
      ensures categories == old(categories)
    {
      AddTaskKeepsConsistent(tasks, categories, draft, id, now);
      tasks := AddedTask(tasks, draft, id, now);
    }

    method UpdateTask(id: string, patch: TaskPatch)
      requires Valid()
      requires patch.title.Some? ==> !Text.IsBlank(patch.title.value)
      requires patch.category.Some? && patch.category.value.Some? ==>
                 patch.category.value.value in categories
      modifies this
      ensures Valid()
      ensures tasks == UpdatedTasks(old(tasks), id, patch)
      ensures categories == old(categories)
    {
      UpdateTaskKeepsConsistent(tasks, categories, id, patch);
      tasks := UpdatedTasks(tasks, id, patch);
    }

    method DeleteTask(id: string)
      requires Valid()
      modifies this
      ensures Valid()
      ensures tasks == DeletedTasks(old(tasks), id)
      ensures categories == old(categories)
    {
      DeleteTaskKeepsConsistent(tasks, categories, id);
      tasks := DeletedTasks(tasks, id);
    }

    method ToggleTaskCompletion(id: string)
      requires Valid()
      modifies this
      ensures Valid()
      ensures tasks == ToggledTasks(old(tasks), id)
      ensures categories == old(categories)
    {
      ToggleKeepsConsistent(tasks, categories, id);
      tasks := ToggledTasks(tasks, id);
    }

    /** addCategory. `id` stands for Date.now().toString(). */
    method AddCategory(draft: CategoryDraft, id: string)
      requires Valid()
      modifies this
      ensures Valid()
      ensures categories == old(categories) + [NewCategory(draft, id)]
      ensures tasks == old(tasks)
    {
      AddCategoryKeepsConsistent(tasks, categories, draft, id);
      categories := AddedCategory(categories, draft, id);
    }

    /** deleteCategory: both lists change in one step. */
    method DeleteCategory(id: string)
      requires Valid()
      modifies this
      ensures Valid()
      ensures tasks == UncategorizedTasks(old(tasks), id)
      ensures categories == RemovedCategories(old(categories), id)
    {
      DeleteCategoryKeepsConsistent(tasks, categories, id);
      tasks, categories := UncategorizedTasks(tasks, id), RemovedCategories(categories, id);
    }
  }
}

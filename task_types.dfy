// The records of src/types/task.ts. Dates are milliseconds since the epoch:
// the application only ever compares them through Date.getTime().
module TaskTypes {

  /** An optional field (`x?: T` in TypeScript): `None` is `undefined`. */
  datatype Option<T> = None | Some(value: T)

  datatype Priority = Low | Medium | High

  datatype Category = Category(id: string, name: string, color: string)

  datatype Task = Task(
    id: string,
    title: string,
    description: Option<string>,
    completed: bool,
    priority: Priority,
    category: Option<Category>,
    dueDate: Option<int>,
    createdAt: int)

  /** `Omit<Task, 'id' | 'createdAt'>`: what a caller hands to addTask. */
  datatype TaskDraft = TaskDraft(
    title: string,
    description: Option<string>,
    completed: bool,
    priority: Priority,
    category: Option<Category>,
    dueDate: Option<int>)

  /** `Omit<TaskCategory, 'id'>`: what a caller hands to addCategory. */
  datatype CategoryDraft = CategoryDraft(name: string, color: string)

  /**
   * `Partial<Task>`: a field that is `None` is absent from the object and is
   * left alone by the spread. The optional fields take a nested option,
   * because an object may carry the key with the value `undefined`
   * (`Some(None)`), which the spread copies over and so clears the field.
   */
  datatype TaskPatch = TaskPatch(
    id: Option<string>,
    title: Option<string>,
    description: Option<Option<string>>,
    completed: Option<bool>,
    priority: Option<Priority>,
    category: Option<Option<Category>>,
    dueDate: Option<Option<int>>,
    createdAt: Option<int>)

  /** The empty partial record `{}`. */
  const NoChanges := TaskPatch(None, None, None, None, None, None, None, None)
}

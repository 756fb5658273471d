/**
 * The task data model shared by every component (src/types/task.ts).
 *
 * A root `Task` and a nested `SubTask` have the same shape in the source except
 * that `project` is mandatory on roots; the model uses one datatype for both,
 * with `project` optional, as the mutators treat every node uniformly.
 */
module Types {

  datatype Option<+T> = None | Some(value: T)

  /** Node identities. `crypto.randomUUID` is replaced by a counter supplying fresh values. */
  type Id = nat

  datatype Status = Todo | InProgress | Done

  datatype Priority = Low | Medium | High

  datatype ViewMode = StatusView | ProjectView

  datatype ActionItem = ActionItem(id: Id, content: string, isCompleted: bool)

  datatype Task = Task(
    id: Id,
    content: string,
    status: Status,
    project: Option<string>,
    subtasks: seq<Task>,
    isExpanded: bool,
    priority: Option<Priority>,
    description: Option<string>,
    actionItems: Option<seq<ActionItem>>)

  const UNCATEGORIZED: string := "Uncategorized"
}

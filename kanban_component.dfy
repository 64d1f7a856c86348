/**
 * The `KanbanBoard` component's state: the board held by `useState` and the
 * text of the new-task input. Every handler replaces the board wholesale, as
 * `setTasks` does, with the value of the matching transition.
 */
module KanbanComponent {
  import opened Wrappers
  import opened JsString
  import opened TaskLists
  import opened Kanban

  class KanbanBoard {
    /** `tasks`: the current board. */
    var tasks: Board
    /** `newTask`: the text of the input field. */
    var newTask: string

    /** The component mounts with three empty columns and an empty input. */
    constructor ()
      ensures tasks == Empty && newTask == ""
    {
      tasks := Empty;
      newTask := "";
    }

    /** The input's `onChange`: records what the user typed. */
    method SetNewTask(text: string)
      modifies this
      ensures newTask == text && tasks == old(tasks)
    {
      newTask := text;
    }

    /**
     * `addTask`, with the clock's identifier passed in: white-space-only input
     * changes nothing (the input keeps its text); otherwise the task is appended
     * to `todo` and the input is cleared.
     */
    method AddTask(freshId: string)
      modifies this
      ensures tasks == Add(old(tasks), old(newTask), freshId)
      ensures AllWhiteSpace(old(newTask)) ==> tasks == old(tasks) && newTask == old(newTask)
      ensures !AllWhiteSpace(old(newTask)) ==> newTask == ""
      ensures UniqueIds(old(tasks)) && freshId !in Ids(old(tasks).All()) ==> UniqueIds(tasks)
    {
      TrimEmptyIff(newTask);
      if Trim(newTask) == [] {
        return;
      }
      if UniqueIds(tasks) && freshId !in Ids(tasks.All()) {
        AddKeepsUniqueIds(tasks, newTask, freshId);
      }
      tasks := Add(tasks, newTask, freshId);
      newTask := "";
    }

    /** `removeTask`: the card's remove button. */
    method RemoveTask(id: string, status: Status)
      modifies this
      ensures tasks == Remove(old(tasks), id, status) && newTask == old(newTask)
      ensures UniqueIds(old(tasks)) ==> UniqueIds(tasks)
    {
      if UniqueIds(tasks) {
        RemoveKeepsUniqueIds(tasks, id, status);
      }
      tasks := Remove(tasks, id, status);
    }

    /** `handleDrop` on column `to`, given the parsed payload (`None` when parsing threw). */
    method HandleDrop(payload: Option<DragData>, to: Status)
      modifies this
      ensures tasks == Drop(old(tasks), payload, to) && newTask == old(newTask)
      ensures UniqueIds(old(tasks)) ==> UniqueIds(tasks)
      ensures UniqueIds(old(tasks)) ==> tasks.Size() == old(tasks).Size()
    {
      match payload
      case None =>
      case Some(DragData(id, from)) =>
        if from == to {
          return;
        }
        if UniqueIds(tasks) {
          MoveKeepsUniqueIds(tasks, id, from, to);
          UniqueIdsIff(tasks);
          ColumnsUniqueGet(tasks);
          MovePreservesSize(tasks, id, from, to);
        }
        tasks := Move(tasks, id, from, to);
    }

    /** `clearAllTasks`, with the user's answer to the confirmation dialog. */
    method ClearAllTasks(confirmed: bool)
      modifies this
      ensures confirmed ==> tasks == Empty
      ensures !confirmed ==> tasks == old(tasks)
      ensures newTask == old(newTask)
    {
      if confirmed {
        tasks := Empty;
      }
    }
  }
}

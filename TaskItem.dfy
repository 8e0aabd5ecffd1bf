// The two pieces of `TaskItem` that are not widget layout: the colour its
// title is drawn in, and the guard that lets a click complete the task once.

module TaskItemModel {
  import opened Tasks

  /** `priority_colors`, keyed by the task's priority number. */
  const PriorityColours: map<int, string> :=
    map[1 := "#B0C4DE", 2 := "#98FB98", 3 := "#FFA07A", 4 := "#FF6B6B"]

  /**
   * `priority_colors.get(getattr(task, 'priority', 4), priority_colors[4])`:
   * the entry for priorities 1 to 4, the entry for 4 for any other number
   * and for a task without a priority.
   */
  function TitleColour(t: Task): (colour: string)
    ensures t.priority.Some? && 1 <= t.priority.value <= 4 ==> colour == PriorityColours[t.priority.value]
    ensures t.priority.None? || !(1 <= t.priority.value <= 4) ==> colour == PriorityColours[4]
  {
    var priority := PriorityKey(t);
    if priority in PriorityColours then PriorityColours[priority] else PriorityColours[4]
  }

  /** Every title gets one of the four configured colours. */
  lemma TitleColourConfigured(t: Task)
    ensures TitleColour(t) in PriorityColours.Values
  {
  }

  /**
   * A rendered task row. `requests` lists the ids of the completion requests
   * it has started, in order; the request itself runs on a thread that is not
   * part of this model.
   */
  class TaskItem {
    const task: Task
    var completed: bool
    var requests: seq<string>

    /** A row starts a request for its own task, and only once it is completed. */
    ghost predicate Valid()
      reads this
    {
      requests == if completed then [task.id] else []
    }

    constructor (task: Task)
      ensures Valid() && this.task == task
      ensures !completed && requests == []
    {
      this.task := task;
      completed := false;
      requests := [];
    }

    /** `toggle_complete`: only the first click marks the row and starts `api.complete_task(task.id)`. */
    method ToggleComplete()
      requires Valid()
      modifies this
      ensures Valid() && completed
      ensures requests == if old(completed) then old(requests) else old(requests) + [task.id]
    {
      if !completed {
        completed := true;
        requests := requests + [task.id];
      }
    }
  }

  /**
   * The user clicking a row's circle `n` times: the canvas binding calls
   * `toggle_complete` on every click, and only the first one starts a request.
   */
  method ClickRepeatedly(item: TaskItem, n: nat)
    requires item.Valid()
    modifies item
    ensures item.Valid()
    ensures item.completed == (old(item.completed) || n > 0)
    ensures item.requests == if n > 0 then [item.task.id] else old(item.requests)
  {
    var clicks := 0;
    while clicks < n
      invariant clicks <= n
      invariant item.Valid()
      invariant item.completed == (old(item.completed) || clicks > 0)
    {
      item.ToggleComplete();
      clicks := clicks + 1;
    }
  }
}

// Tasks as the Todoist client hands them to the widget, and the paginated
// listing that `api.get_tasks(limit=100)` yields.

module Tasks {

  datatype Option<+T> = None | Some(value: T)

  /** A calendar day, numbered as Python's `date.toordinal` numbers it. */
  type Day = int

  /** `date.max.toordinal()`: 9999-12-31. Adding days past it raises OverflowError. */
  const MaxDay: Day := 3652059

  /** The length of the upcoming window, `timedelta(days=7)`. */
  const UpcomingDays: int := 7

  /**
   * A task: `due` is `None` when `task.due` is falsy, otherwise the day of
   * `task.due.date`; `priority` is `None` when the object has no `priority`
   * attribute.
   */
  datatype Task = Task(id: string, content: string, due: Option<Day>, priority: Option<int>)

  /**
   * What walking the paginator produces: the pages it yielded, in order, and
   * whether the client raised after them (`failed`). A failure of the first
   * request is `Listing([], true)`.
   */
  datatype Listing = Listing(pages: seq<seq<Task>>, failed: bool)

  /** `getattr(task, 'priority', 4)`: the key both filters sort by and the colour lookup uses. */
  function PriorityKey(t: Task): int {
    match t.priority
    case Some(p) => p
    case None => 4
  }

  /** All tasks of all pages, in fetch order. */
  function Flatten(pages: seq<seq<Task>>): seq<Task> {
    if pages == [] then [] else Flatten(pages[..|pages| - 1]) + pages[|pages| - 1]
  }

  /** A task is in the flattened listing exactly when some page holds it. */
  lemma {:induction false} FlattenMembership(pages: seq<seq<Task>>, t: Task)
    ensures t in Flatten(pages) <==> exists i :: 0 <= i < |pages| && t in pages[i]
  {
    if pages != [] {
      var n := |pages| - 1;
      FlattenMembership(pages[..n], t);
      if t in Flatten(pages[..n]) {
        var i :| 0 <= i < n && t in pages[..n][i];
        assert t in pages[i];
      }
      if exists i :: 0 <= i < |pages| && t in pages[i] {
        var i :| 0 <= i < |pages| && t in pages[i];
        if i < n {
          assert t in pages[..n][i];
        }
      }
    }
  }

  /** Appending one more page to the walk appends its tasks to the flattened listing. */
  lemma FlattenStep(pages: seq<seq<Task>>, i: nat)
    requires i < |pages|
    ensures Flatten(pages[..i + 1]) == Flatten(pages[..i]) + pages[i]
  {
    assert pages[..i + 1][..i] == pages[..i];
  }
}

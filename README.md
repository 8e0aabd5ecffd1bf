# Todoer task selection, in Dafny

Todoer is a desktop widget that shows a user's Todoist tasks for today and
for the coming week, and lets the user tick a task off. This project models
the logic that decides what the widget shows and what a click does:

- `get_todays_tasks` and `get_upcoming_tasks` walk every page of the task
  listing, keep the tasks due today (resp. due in the seven days after
  today), sort the kept tasks by priority number, largest first, with
  Python's stable `list.sort(reverse=True)`, and answer the empty list when
  anything raises (module `Filters`, the sort in `PrioritySort`);
- the title colour of a task row, looked up from its priority with priority 4
  as the fallback, and the guard in `TaskItem.toggle_complete` that lets only
  the first click mark the task and start a completion request (module
  `TaskItemModel`).

Dates are day numbers as Python's `date.toordinal` counts them, so
`today + timedelta(days=7)` is `today + 7`, and `date.max` is day 3652059.
The current date is a parameter. The paginated result of `api.get_tasks` is
an input `Listing(pages, failed)`: the pages the paginator yielded, in order,
and whether the client raised after them. A missing `due` is `None`; a task
object without a `priority` attribute has priority `None`, which every use
reads as 4.

The two filters are methods with nested loops over the pages that append to
a list and sort it at the end, each proved equal to a specification function
(`TodaysTasks`, `UpcomingTasks`); the lemmas about those functions state the
membership, permutation, ordering and error properties. `list.sort` itself
is a library call, so the model gives its result as the function
`SortByPriority` (an insertion sort) and proves that this result is the only
list that is sorted by descending priority and keeps every priority's tasks
in their original order (`StableSortUnique`), which is what Python documents
for a stable sort with `reverse=True`.

Two behaviours of the code are worth spelling out:

- The filters sort by the priority number, largest first, so for tasks A
  (today, priority 1) and B (today, priority 3) the today list is `[B, A]`
  (`Scenarios.FiveTasksToday`); in the Todoist API priority 4 is the most
  urgent, which is what the code's "high to low" comment refers to.
- The upcoming filter computes `today + timedelta(days=7)` inside its `try`
  block, and only for a task due after today (the chained comparison stops
  at `today < due`). Within seven days of `date.max` that addition raises
  OverflowError and the function returns `[]`. The model keeps this case
  (`Filters.RaisesOverflow`).

## Model

| member | source | states |
|---|---|---|
| Filters.GetTodaysTasks | main.py:82-104 | walking the pages and sorting what was kept yields exactly `TodaysTasks(listing, today)`: the empty list if the client raised at any point, otherwise the stable descending priority sort of the tasks due today in fetch order |
| Filters.GetUpcomingTasks | main.py:106-124 | walking the pages yields exactly `UpcomingTasks(listing, today)`: the empty list if the client raised or `today + 7 days` overflowed for a task due after today, otherwise the stable descending priority sort of the tasks due in (today, today + 7] in fetch order |
| Filters.SelectCount | main.py:90-97 | the appending loops keep each task of the window as often as it was fetched and no other task |
| Filters.TodaysTasksCount | main.py:90-104 | each task occurs in the today list as often as it was fetched when it is due today and the walk did not fail, and not at all otherwise: nothing added, dropped or duplicated |
| Filters.TodaysTasksMembership | main.py:95-96 | a task is in the today list if and only if the walk did not fail, it was fetched, it has a due date, and that date is today |
| Filters.TodaysTasksOrder | main.py:99 | the today list is non-increasing in priority (missing counts as 4) and keeps the fetch order of tasks with equal priority |
| Filters.UpcomingTasksCount | main.py:112-124 | each task occurs in the upcoming list as often as it was fetched when it is due in (today, today + 7] and the walk neither failed nor overflowed, and not at all otherwise |
| Filters.UpcomingTasksMembership | main.py:114-117 | a task is in the upcoming list if and only if the walk neither failed nor overflowed, it was fetched, and it has a due date `d` with `today < d <= today + 7` |
| Filters.UpcomingTasksOrder | main.py:120 | the upcoming list is non-increasing in priority and keeps the fetch order of tasks with equal priority |
| Filters.UpcomingEmptyOnOverflow | main.py:116 | when `today + 7` is past `date.max` and some fetched task is due after today, the upcoming list is empty |
| Filters.NoDueDateInNeither | main.py:93-117 | a task without a due date is in neither list, whatever the listings and dates |
| Filters.ListsDisjoint | main.py:137-151 | with the today list fetched first and the upcoming list second, each from its own fetch, no equal task value is in both lists as long as the clock did not go backwards between the two calls |
| PrioritySort.SortIsPermutation | main.py:99 | the priority sort returns every task exactly as often as it was given |
| PrioritySort.SortIsStable | main.py:99 | the priority sort's result is non-increasing in `getattr(x, 'priority', 4)` and, for every priority, lists that priority's tasks in the order they were given |
| PrioritySort.StableSortUnique | main.py:99 | any list that is sorted by descending priority and keeps each priority's tasks in their given order is the priority sort's result, so the model of `.sort` is the only one the stability guarantee allows |
| Tasks.FlattenMembership | main.py:90-91 | the walk over pages and tasks meets a task if and only if some page holds it |
| Scenarios.FiveTasksToday | main.py:82-100 | for tasks A (today, priority 1), B (today, priority 3), C (in 3 days), D (in 10 days) and E (no due date), the today list is `[B, A]` |
| Scenarios.FiveTasksUpcoming | main.py:106-121 | for the same five tasks, the upcoming list is `[C]` |
| Scenarios.EqualPrioritiesKeepFetchOrder | main.py:99 | a task without priority goes before two tasks of priority 2, which keep their fetch order |
| Scenarios.FailureAfterFirstPage | main.py:102-104 | a client error after a page with a task due today still gives the empty list |
| TaskItemModel.TitleColour | main.py:42-43 | the title colour is the `priority_colors` entry for priorities 1 to 4, and the entry for 4 for any other priority and for a task without one |
| TaskItemModel.TitleColourConfigured | main.py:12-17 | every title colour is one of the four configured colours |
| TaskItemModel.TaskItem.constructor | main.py:20-23 | a new row belongs to its task, is not completed and has started no request |
| TaskItemModel.ClickRepeatedly | main.py:35-66 | any number of clicks on a row, each one a call of `toggle_complete`, leaves it completed with exactly the one request for its task started, once there was at least one click; with no click nothing changes |
| TaskItemModel.TaskItem.ToggleComplete | main.py:64-79 | the first click sets `completed` and starts one request for the row's task id; a click on a completed row changes nothing; a row only ever starts a request for its own task, once |

## Left out

- The Tkinter user interface: widget construction, packing and layout, the rebuilding of the rows in `refresh_tasks`, the `isinstance(..., str)` branches there (the filters never return a string), scrolling and `smooth_scroll` (floating-point view fractions), window resizing, and the date label text made with `strftime`.
- The periodic refresh with `root.after` and the logging with `print`.
- The two lists come from two separate fetches (main.py:87, main.py:111). A task whose due date changes between them, say rescheduled from today to tomorrow, can be shown in both lists; `Filters.ListsDisjoint` only rules out one and the same task value being in both.
- `api.get_tasks` and `date.today()`: their results are the `Listing` and `today` parameters. The model does not describe how the client pages or what it raises, only that a raise ends the walk.
- Due dates are whole days only. If the client returned a due with a time of day (a `datetime`), `task.due.date == today` (main.py:95) would be False without error, so that task would silently be left out of the today list, and `today < due` (main.py:116) would raise TypeError, so the whole upcoming list would be `[]`. Neither effect is modelled.
- `api.complete_task`, the thread that runs it, and `pack_forget` after it succeeds: the model records the started request by task id and does not model its outcome, its concurrency with a refresh, or the row's removal.
- Python's `list.sort` is modelled by its result, not by its algorithm (Timsort); the sort runs on a value, not in place.
- The unused walk counter `count` and the unused `due_date` text in `get_todays_tasks`.
- The second binding of `priority_colors` during the interface setup has the same four entries as the first, so one map models both.

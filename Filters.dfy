// `get_todays_tasks` and `get_upcoming_tasks`: walk every page of the
// listing, keep the tasks due in a window, sort what was kept by priority
// (highest number first, stable), and answer the empty list whenever the
// client or the date arithmetic raises.

module Filters {
  import opened Tasks
  import opened PrioritySort

  /** Which of the two filters a selection belongs to. */
  datatype Window = Today | Upcoming

  /** `task.due and task.due.date == today`. */
  predicate DueToday(t: Task, today: Day) {
    t.due.Some? && t.due.value == today
  }

  /** `task.due` and `today < due <= today + timedelta(days=7)`. */
  predicate DueUpcoming(t: Task, today: Day) {
    t.due.Some? && today < t.due.value <= today + UpcomingDays
  }

  predicate InWindow(t: Task, today: Day, w: Window) {
    match w
    case Today => DueToday(t, today)
    case Upcoming => DueUpcoming(t, today)
  }

  /** The tasks of `s` in window `w`, in the order of `s`: what the loops append. */
  function Select(s: seq<Task>, today: Day, w: Window): seq<Task> {
    if s == [] then []
    else Select(s[..|s| - 1], today, w) + (if InWindow(s[|s| - 1], today, w) then [s[|s| - 1]] else [])
  }

  /**
   * The chained comparison `today < due <= today + timedelta(days=7)` only
   * computes `today + 7 days` for a task due after today, and raises
   * OverflowError there when that day is past `date.max`.
   */
  predicate RaisesOverflow(s: seq<Task>, today: Day) {
    today + UpcomingDays > MaxDay && exists t :: t in s && DueAfter(t, today)
  }

  predicate DueAfter(t: Task, today: Day) {
    t.due.Some? && today < t.due.value
  }

  /** What `get_todays_tasks` returns for a listing when the clock says `today`. */
  function TodaysTasks(listing: Listing, today: Day): seq<Task> {
    if listing.failed then []
    else SortByPriority(Select(Flatten(listing.pages), today, Today))
  }

  /** What `get_upcoming_tasks` returns for a listing when the clock says `today`. */
  function UpcomingTasks(listing: Listing, today: Day): seq<Task> {
    var fetched := Flatten(listing.pages);
    if RaisesOverflow(fetched, today) || listing.failed then []
    else SortByPriority(Select(fetched, today, Upcoming))
  }

  method GetTodaysTasks(listing: Listing, today: Day) returns (todayTasks: seq<Task>)
    ensures todayTasks == TodaysTasks(listing, today)
  {
    var pages := listing.pages;
    todayTasks := [];
    for i := 0 to |pages|
      invariant todayTasks == Select(Flatten(pages[..i]), today, Today)
    {
      var page := pages[i];
      assert Flatten(pages[..i]) + page[..0] == Flatten(pages[..i]);
      for j := 0 to |page|
        invariant todayTasks == Select(Flatten(pages[..i]) + page[..j], today, Today)
      {
        var task := page[j];
        ghost var before := Flatten(pages[..i]) + page[..j];
        assert (before + [task])[..|before|] == before;
        assert Flatten(pages[..i]) + page[..j + 1] == before + [task];
        if task.due.Some? && task.due.value == today {
          todayTasks := todayTasks + [task];
        }
      }
      assert page[..|page|] == page;
      FlattenStep(pages, i);
    }
    assert pages[..|pages|] == pages;
    if listing.failed {
      // the paginator raised: the except clause answers []
      return [];
    }
    todayTasks := SortByPriority(todayTasks);
  }

  method GetUpcomingTasks(listing: Listing, today: Day) returns (upcoming: seq<Task>)
    ensures upcoming == UpcomingTasks(listing, today)
  {
    var pages := listing.pages;
    upcoming := [];
    for i := 0 to |pages|
      invariant upcoming == Select(Flatten(pages[..i]), today, Upcoming)
      invariant !RaisesOverflow(Flatten(pages[..i]), today)
    {
      var page := pages[i];
      assert Flatten(pages[..i]) + page[..0] == Flatten(pages[..i]);
      for j := 0 to |page|
        invariant upcoming == Select(Flatten(pages[..i]) + page[..j], today, Upcoming)
        invariant !RaisesOverflow(Flatten(pages[..i]) + page[..j], today)
      {
        var task := page[j];
        ghost var before := Flatten(pages[..i]) + page[..j];
        assert (before + [task])[..|before|] == before;
        assert Flatten(pages[..i]) + page[..j + 1] == before + [task];
        if task.due.Some? {
          var due := task.due.value;
          if today < due {
            if today + UpcomingDays > MaxDay {
              // OverflowError from `today + timedelta(days=7)`: the except clause answers []
              assert task in pages[i];
              FlattenMembership(pages, task);
              return [];
            }
            if due <= today + UpcomingDays {
              upcoming := upcoming + [task];
            }
          }
        }
      }
      assert page[..|page|] == page;
      FlattenStep(pages, i);
    }
    assert pages[..|pages|] == pages;
    if listing.failed {
      return [];
    }
    upcoming := SortByPriority(upcoming);
  }

  /** The loops keep each task of window `w` as often as it was fetched, and no other task. */
  lemma {:induction false} SelectCount(s: seq<Task>, today: Day, w: Window, t: Task)
    ensures multiset(Select(s, today, w))[t] == if InWindow(t, today, w) then multiset(s)[t] else 0
  {
    if s != [] {
      var n := |s| - 1;
      SelectCount(s[..n], today, w, t);
      assert s == s[..n] + [s[n]];
    }
  }

  /**
   * `get_todays_tasks`: after a walk that did not fail, each task occurs in
   * the result exactly as often as it was fetched if it is due today, and
   * not at all otherwise; after a failed walk the result is empty.
   */
  lemma TodaysTasksCount(listing: Listing, today: Day, t: Task)
    ensures multiset(TodaysTasks(listing, today))[t]
         == if !listing.failed && DueToday(t, today) then multiset(Flatten(listing.pages))[t] else 0
  {
    if !listing.failed {
      var kept := Select(Flatten(listing.pages), today, Today);
      SortIsPermutation(kept);
      SelectCount(Flatten(listing.pages), today, Today, t);
    }
  }

  /** A task is in the today list if and only if it was fetched and is due today. */
  lemma TodaysTasksMembership(listing: Listing, today: Day, t: Task)
    ensures t in TodaysTasks(listing, today)
        <==> !listing.failed && t in Flatten(listing.pages) && DueToday(t, today)
  {
    TodaysTasksCount(listing, today, t);
  }

  /**
   * The today list is ordered by descending priority, tasks of equal
   * priority in fetch order: the stable-sort specification of the tasks due
   * today, taken in fetch order.
   */
  lemma TodaysTasksOrder(listing: Listing, today: Day)
    requires !listing.failed
    ensures IsStableSortOf(TodaysTasks(listing, today), Select(Flatten(listing.pages), today, Today))
  {
    SortIsStable(Select(Flatten(listing.pages), today, Today));
  }

  /**
   * `get_upcoming_tasks`: after a walk that neither failed nor overflowed,
   * each task occurs in the result exactly as often as it was fetched if it
   * is due within the seven days after today, and not at all otherwise.
   */
  lemma UpcomingTasksCount(listing: Listing, today: Day, t: Task)
    ensures multiset(UpcomingTasks(listing, today))[t]
         == if !listing.failed && !RaisesOverflow(Flatten(listing.pages), today) && DueUpcoming(t, today)
            then multiset(Flatten(listing.pages))[t] else 0
  {
    var fetched := Flatten(listing.pages);
    if !listing.failed && !RaisesOverflow(fetched, today) {
      SortIsPermutation(Select(fetched, today, Upcoming));
      SelectCount(fetched, today, Upcoming, t);
    }
  }

  /** A task is in the upcoming list if and only if it was fetched and is due in (today, today + 7]. */
  lemma UpcomingTasksMembership(listing: Listing, today: Day, t: Task)
    ensures t in UpcomingTasks(listing, today)
        <==> !listing.failed && !RaisesOverflow(Flatten(listing.pages), today)
             && t in Flatten(listing.pages) && DueUpcoming(t, today)
  {
    UpcomingTasksCount(listing, today, t);
  }

  /** The upcoming list is ordered like the today list. */
  lemma UpcomingTasksOrder(listing: Listing, today: Day)
    requires !listing.failed && !RaisesOverflow(Flatten(listing.pages), today)
    ensures IsStableSortOf(UpcomingTasks(listing, today), Select(Flatten(listing.pages), today, Upcoming))
  {
    SortIsStable(Select(Flatten(listing.pages), today, Upcoming));
  }

  /**
   * When `today + 7 days` is past `date.max` and some fetched task is due
   * after today, the upcoming list is empty even though that task is due
   * within the window.
   */
  lemma UpcomingEmptyOnOverflow(listing: Listing, today: Day, t: Task)
    requires today + UpcomingDays > MaxDay
    requires t in Flatten(listing.pages) && DueAfter(t, today)
    ensures UpcomingTasks(listing, today) == []
  {
  }

  /** A task without a due date is in neither list. */
  lemma NoDueDateInNeither(first: Listing, second: Listing, today: Day, later: Day, t: Task)
    requires t.due.None?
    ensures t !in TodaysTasks(first, today) && t !in UpcomingTasks(second, later)
  {
    TodaysTasksMembership(first, today, t);
    UpcomingTasksMembership(second, later, t);
  }

  /**
   * The refresh asks for the today list first and the upcoming list second,
   * each with its own fetch and its own reading of the clock. As long as the
   * clock does not go backwards between the two, no equal task value is in
   * both lists. A task whose due date changes between the two fetches is two
   * different values here, and can be in both.
   */
  lemma ListsDisjoint(first: Listing, second: Listing, today: Day, later: Day, t: Task)
    requires today <= later
    ensures !(t in TodaysTasks(first, today) && t in UpcomingTasks(second, later))
  {
    TodaysTasksMembership(first, today, t);
    UpcomingTasksMembership(second, later, t);
  }
}

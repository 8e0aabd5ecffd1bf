// Concrete listings worked through both filters, on the day 2026-10-19.

module Scenarios {
  import opened Tasks
  import opened PrioritySort
  import opened Filters

  /** 2026-10-19 as `date.toordinal` numbers it. */
  const Day0: Day := 739908

  // A and B are due today with priorities 1 and 3, C in three days with
  // priority 2, D in ten days with priority 1, and E has no due date.
  const A := Task("A", "a", Some(Day0), Some(1))
  const B := Task("B", "b", Some(Day0), Some(3))
  const C := Task("C", "c", Some(Day0 + 3), Some(2))
  const D := Task("D", "d", Some(Day0 + 10), Some(1))
  const E := Task("E", "e", None, Some(4))

  /** The five tasks over two pages. */
  const FiveTasks := Listing([[A, B, C], [D, E]], false)

  lemma FiveTasksFetched()
    ensures Flatten(FiveTasks.pages) == [A, B, C, D, E]
  {
    var pages := FiveTasks.pages;
    assert pages[..1] == [[A, B, C]] && pages[..1][..0] == [];
    assert Flatten(pages[..1]) == [A, B, C];
  }

  /**
   * The today list holds A and B only, and B comes first: the filters sort
   * by the priority number, largest first.
   */
  lemma FiveTasksToday()
    ensures TodaysTasks(FiveTasks, Day0) == [B, A]
  {
    FiveTasksFetched();
    var fetched := [A, B, C, D, E];
    assert fetched[..4] == [A, B, C, D] && fetched[..3] == [A, B, C];
    assert [A, B, C, D][..3] == [A, B, C] && [A, B, C][..2] == [A, B] && [A, B][..1] == [A];
    assert [A][..0] == [];
    assert Select([A], Day0, Today) == [A];
    assert Select([A, B], Day0, Today) == [A, B];
    assert Select([A, B, C], Day0, Today) == [A, B];
    assert Select([A, B, C, D], Day0, Today) == [A, B];
    assert Select(fetched, Day0, Today) == [A, B];
    assert SortByPriority([A]) == [A];
    assert Insert(B, [A]) == [B, A];
  }

  /** The upcoming list holds C only; D is due after the window and E has no due date. */
  lemma FiveTasksUpcoming()
    ensures UpcomingTasks(FiveTasks, Day0) == [C]
  {
    FiveTasksFetched();
    var fetched := [A, B, C, D, E];
    assert fetched[..4] == [A, B, C, D] && fetched[..3] == [A, B, C];
    assert [A, B, C, D][..3] == [A, B, C] && [A, B, C][..2] == [A, B] && [A, B][..1] == [A];
    assert [A][..0] == [];
    assert Select([A], Day0, Upcoming) == [];
    assert Select([A, B], Day0, Upcoming) == [];
    assert Select([A, B, C], Day0, Upcoming) == [C];
    assert Select([A, B, C, D], Day0, Upcoming) == [C];
    assert Select(fetched, Day0, Upcoming) == [C];
    assert !RaisesOverflow(fetched, Day0);
    assert [C][..0] == [];
    assert SortByPriority([C]) == [C];
  }

  /**
   * Two tasks of priority 2 around one without a priority attribute: the
   * missing priority counts as 4 and goes first, the other two keep their
   * fetch order although the sort is reversed.
   */
  lemma EqualPrioritiesKeepFetchOrder()
    ensures var x := Task("X", "x", Some(Day0), Some(2));
            var y := Task("Y", "y", Some(Day0), None);
            var z := Task("Z", "z", Some(Day0), Some(2));
            TodaysTasks(Listing([[x], [y, z]], false), Day0) == [y, x, z]
  {
    var x := Task("X", "x", Some(Day0), Some(2));
    var y := Task("Y", "y", Some(Day0), None);
    var z := Task("Z", "z", Some(Day0), Some(2));
    var pages := [[x], [y, z]];
    assert pages[..1] == [[x]] && pages[..1][..0] == [];
    assert Flatten(pages[..1]) == [x];
    assert Flatten(pages) == [x] + [y, z] == [x, y, z];
    assert [x, y, z][..2] == [x, y] && [x, y][..1] == [x] && [x][..0] == [];
    assert Select([x], Day0, Today) == [x];
    assert Select([x, y], Day0, Today) == [x, y];
    assert Select([x, y, z], Day0, Today) == [x, y, z];
    assert SortByPriority([x]) == [x];
    assert Insert(y, [x]) == [y, x];
    assert SortByPriority([x, y]) == [y, x];
    assert [y, x][..1] == [y];
    assert Insert(z, [y, x]) == [y, x, z];
  }

  /** A failure after the first page discards what was already kept. */
  lemma FailureAfterFirstPage()
    ensures TodaysTasks(Listing([[A]], true), Day0) == []
  {
  }
}

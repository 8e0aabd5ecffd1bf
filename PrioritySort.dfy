// `tasks.sort(key=lambda x: getattr(x, 'priority', 4), reverse=True)`:
// Python's list sort is stable, and stays stable with `reverse=True`, so the
// result puts larger priority numbers first and keeps tasks of equal
// priority in the order they were appended.

module PrioritySort {
  import opened Tasks

  /** Non-increasing in priority key. */
  predicate Sorted(s: seq<Task>) {
    forall i, j :: 0 <= i < j < |s| ==> PriorityKey(s[i]) >= PriorityKey(s[j])
  }

  /** The tasks of `s` whose priority key is `k`, in their order in `s`. */
  function WithPriority(s: seq<Task>, k: int): seq<Task> {
    if s == [] then []
    else WithPriority(s[..|s| - 1], k) + (if PriorityKey(s[|s| - 1]) == k then [s[|s| - 1]] else [])
  }

  /**
   * The specification of a stable sort by descending priority: `r` is sorted
   * and, for every priority, holds exactly the tasks of `s` with that
   * priority in the order `s` has them.
   */
  ghost predicate IsStableSortOf(r: seq<Task>, s: seq<Task>) {
    Sorted(r) && forall k :: WithPriority(r, k) == WithPriority(s, k)
  }

  /** Places `x` after every task of `s` whose key is at least `x`'s. */
  function Insert(x: Task, s: seq<Task>): seq<Task> {
    if s == [] || PriorityKey(s[|s| - 1]) >= PriorityKey(x) then s + [x]
    else Insert(x, s[..|s| - 1]) + [s[|s| - 1]]
  }

  /** The list that `.sort(key=priority, reverse=True)` leaves behind. */
  function SortByPriority(s: seq<Task>): seq<Task> {
    if s == [] then [] else Insert(s[|s| - 1], SortByPriority(s[..|s| - 1]))
  }

  lemma {:induction false} InsertCount(x: Task, s: seq<Task>)
    ensures multiset(Insert(x, s)) == multiset(s) + multiset{x}
  {
    if s != [] && PriorityKey(s[|s| - 1]) < PriorityKey(x) {
      var n := |s| - 1;
      InsertCount(x, s[..n]);
      assert s == s[..n] + [s[n]];
    }
  }

  lemma {:induction false} InsertSorted(x: Task, s: seq<Task>)
    requires Sorted(s)
    ensures Sorted(Insert(x, s))
  {
    if s != [] && PriorityKey(s[|s| - 1]) < PriorityKey(x) {
      var n := |s| - 1;
      var head := Insert(x, s[..n]);
      InsertSorted(x, s[..n]);
      InsertCount(x, s[..n]);
      forall i | 0 <= i < |head|
        ensures PriorityKey(head[i]) >= PriorityKey(s[n])
      {
        assert head[i] in multiset(s[..n]) + multiset{x};
        if head[i] != x {
          var j :| 0 <= j < n && s[j] == head[i];
        }
      }
    }
  }

  lemma {:induction false} InsertWithPriority(x: Task, s: seq<Task>, k: int)
    ensures WithPriority(Insert(x, s), k)
         == WithPriority(s, k) + (if PriorityKey(x) == k then [x] else [])
  {
    var r := Insert(x, s);
    if s == [] || PriorityKey(s[|s| - 1]) >= PriorityKey(x) {
      assert r[..|r| - 1] == s;
    } else {
      var n := |s| - 1;
      InsertWithPriority(x, s[..n], k);
      assert r[..|r| - 1] == Insert(x, s[..n]);
    }
  }

  /** The sort keeps every task exactly as often as it occurs: a permutation. */
  lemma {:induction false} SortIsPermutation(s: seq<Task>)
    ensures multiset(SortByPriority(s)) == multiset(s)
  {
    if s != [] {
      var n := |s| - 1;
      SortIsPermutation(s[..n]);
      InsertCount(s[n], SortByPriority(s[..n]));
      assert s == s[..n] + [s[n]];
    }
  }

  /** The sort meets the stable-sort specification. */
  lemma {:induction false} SortIsStable(s: seq<Task>)
    ensures IsStableSortOf(SortByPriority(s), s)
  {
    if s != [] {
      var n := |s| - 1;
      SortIsStable(s[..n]);
      InsertSorted(s[n], SortByPriority(s[..n]));
      forall k
        ensures WithPriority(SortByPriority(s), k) == WithPriority(s, k)
      {
        InsertWithPriority(s[n], SortByPriority(s[..n]), k);
      }
    }
  }

  /**
   * The stable-sort specification admits one result only, so `SortByPriority`
   * is the one list that `.sort` may produce.
   */
  lemma {:induction false} StableSortUnique(r: seq<Task>, s: seq<Task>)
    requires IsStableSortOf(r, s)
    ensures r == SortByPriority(s)
  {
    SortIsStable(s);
    SortedSamePrioritiesEqual(r, SortByPriority(s));
  }

  /** Two sorted lists that agree on every per-priority subsequence are equal. */
  lemma {:induction false} SortedSamePrioritiesEqual(a: seq<Task>, b: seq<Task>)
    requires Sorted(a) && Sorted(b)
    requires forall k :: WithPriority(a, k) == WithPriority(b, k)
    ensures a == b
    decreases |a| + |b|
  {
    // Neither can be empty alone: the last task of one would have to be in the other.
    LastInOwnPriority(a);
    LastInOwnPriority(b);
    if a != [] {
      var na, nb := |a| - 1, |b| - 1;
      var ka, kb := PriorityKey(a[na]), PriorityKey(b[nb]);
      assert WithPriority(a, ka) != [] && WithPriority(b, kb) != [];
      LastHasLeastKey(b, ka);
      LastHasLeastKey(a, kb);
      assert ka == kb;
      var w := WithPriority(a, ka);
      assert w == WithPriority(a[..na], ka) + [a[na]];
      assert w == WithPriority(b, ka) == WithPriority(b[..nb], ka) + [b[nb]];
      assert a[na] == w[|w| - 1] == b[nb];
      forall k
        ensures WithPriority(a[..na], k) == WithPriority(b[..nb], k)
      {
        assert WithPriority(a, k) == WithPriority(b, k);
        if k != ka {
          assert WithPriority(a, k) == WithPriority(a[..na], k);
          assert WithPriority(b, k) == WithPriority(b[..nb], k);
        } else {
          assert WithPriority(a[..na], k) == w[..|w| - 1] == WithPriority(b[..nb], k);
        }
      }
      SortedSamePrioritiesEqual(a[..na], b[..nb]);
      assert a == a[..na] + [a[na]];
      assert b == b[..nb] + [b[nb]];
    }
  }

  lemma LastInOwnPriority(s: seq<Task>)
    ensures s != [] ==> WithPriority(s, PriorityKey(s[|s| - 1])) != []
  {
  }

  /** When some task of `s` has key `k`, the last task of sorted `s` has key at most `k`. */
  lemma LastHasLeastKey(s: seq<Task>, k: int)
    requires Sorted(s) && s != []
    requires WithPriority(s, k) != []
    ensures PriorityKey(s[|s| - 1]) <= k
  {
  }
}

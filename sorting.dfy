/** The display order of a list (To-Do.py:96-97, 111): Python's stable
    `list.sort` keyed on (priority rank, completed), applied to the top-level
    tasks and then to each task's subtasks. `list.sort` is a library call;
    `StableSort` is a reference definition of what it computes, and the
    lemmas below show that it is the one sequence that is ordered by the key,
    a permutation of its input and stable. */
module Sorting {
  import opened TodoModel

  /** Non-decreasing in the sort key. */
  predicate SortedByKey(s: seq<Task>) {
    forall i, j :: 0 <= i < j < |s| ==> SortKey(s[i]) <= SortKey(s[j])
  }

  /** The tasks of `s` whose key is `k`, in their order in `s`. */
  function WithKey(s: seq<Task>, k: int): seq<Task> {
    if s == [] then []
    else (if SortKey(s[0]) == k then [s[0]] else []) + WithKey(s[1..], k)
  }

  /** `r` keeps the relative order of every group of equal-key tasks of `s`:
      what stability of a sort means. */
  ghost predicate KeepsKeyOrder(r: seq<Task>, s: seq<Task>) {
    forall k :: WithKey(r, k) == WithKey(s, k)
  }

  /** Inserts `t` before the first task whose key is not smaller. */
  function Insert(t: Task, s: seq<Task>): seq<Task> {
    if s == [] || SortKey(t) <= SortKey(s[0]) then [t] + s
    else [s[0]] + Insert(t, s[1..])
  }

  /** Stable insertion sort by `SortKey`. */
  function StableSort(s: seq<Task>): seq<Task> {
    if s == [] then [] else Insert(s[0], StableSort(s[1..]))
  }

  lemma {:induction false} WithKeyMembers(s: seq<Task>, k: int, x: Task)
    ensures x in WithKey(s, k) <==> x in s && SortKey(x) == k
  {
    if s != [] {
      WithKeyMembers(s[1..], k, x);
      assert s == [s[0]] + s[1..];
    }
  }

  lemma {:induction false} WithKeyConcat(a: seq<Task>, b: seq<Task>, k: int)
    ensures WithKey(a + b, k) == WithKey(a, k) + WithKey(b, k)
  {
    if a != [] {
      assert (a + b)[0] == a[0];
      assert (a + b)[1..] == a[1..] + b;
      WithKeyConcat(a[1..], b, k);
    } else {
      assert a + b == b;
    }
  }

  lemma {:induction false} InsertMultiset(t: Task, s: seq<Task>)
    ensures multiset(Insert(t, s)) == multiset(s) + multiset{t}
  {
    if s != [] && SortKey(t) > SortKey(s[0]) {
      InsertMultiset(t, s[1..]);
      assert s == [s[0]] + s[1..];
    }
  }

  lemma {:induction false} InsertWithKey(t: Task, s: seq<Task>, k: int)
    ensures WithKey(Insert(t, s), k) == (if SortKey(t) == k then [t] else []) + WithKey(s, k)
  {
    if s == [] || SortKey(t) <= SortKey(s[0]) {
      assert ([t] + s)[1..] == s;
    } else {
      var rest := Insert(t, s[1..]);
      InsertWithKey(t, s[1..], k);
      assert ([s[0]] + rest)[1..] == rest;
    }
  }

  lemma SortedCons(x: Task, r: seq<Task>)
    requires SortedByKey(r)
    requires forall y :: y in r ==> SortKey(x) <= SortKey(y)
    ensures SortedByKey([x] + r)
  {
    var xr := [x] + r;
    forall i, j | 0 <= i < j < |xr| ensures SortKey(xr[i]) <= SortKey(xr[j]) {
      if i == 0 {
        assert xr[j] == r[j - 1];
      } else {
        assert xr[i] == r[i - 1] && xr[j] == r[j - 1];
      }
    }
  }

  lemma {:induction false} InsertSorted(t: Task, s: seq<Task>)
    requires SortedByKey(s)
    ensures SortedByKey(Insert(t, s))
  {
    if s == [] || SortKey(t) <= SortKey(s[0]) {
      forall y | y in s ensures SortKey(t) <= SortKey(y) {
        var j :| 0 <= j < |s| && s[j] == y;
        assert SortKey(s[0]) <= SortKey(s[j]);
      }
      SortedCons(t, s);
    } else {
      var rest := Insert(t, s[1..]);
      InsertSorted(t, s[1..]);
      InsertMultiset(t, s[1..]);
      forall y | y in rest ensures SortKey(s[0]) <= SortKey(y) {
        assert y in multiset(rest);
        if y != t {
          assert y in multiset(s[1..]);
          var j :| 0 <= j < |s[1..]| && s[1..][j] == y;
          assert s[j + 1] == y;
        }
      }
      SortedCons(s[0], rest);
    }
  }

  /** The sorted list is ordered by the key, is a permutation of the input,
      and keeps equal-key tasks in their original relative order. */
  lemma {:induction false} StableSortCorrect(s: seq<Task>)
    ensures SortedByKey(StableSort(s))
    ensures multiset(StableSort(s)) == multiset(s)
    ensures KeepsKeyOrder(StableSort(s), s)
  {
    if s != [] {
      StableSortCorrect(s[1..]);
      InsertSorted(s[0], StableSort(s[1..]));
      InsertMultiset(s[0], StableSort(s[1..]));
      assert s == [s[0]] + s[1..];
      forall k ensures WithKey(StableSort(s), k) == WithKey(s, k) {
        InsertWithKey(s[0], StableSort(s[1..]), k);
      }
    }
  }

  lemma WithKeyHead(s: seq<Task>)
    requires s != []
    ensures WithKey(s, SortKey(s[0])) != []
  {
  }

  /** Two key-ordered sequences with the same equal-key groups are equal. */
  lemma {:induction false} SortedUnique(a: seq<Task>, b: seq<Task>)
    requires SortedByKey(a) && SortedByKey(b)
    requires KeepsKeyOrder(a, b)
    ensures a == b
  {
    if a == [] && b == [] {
    } else if a == [] {
      WithKeyHead(b);
      assert false;
    } else if b == [] {
      WithKeyHead(a);
      assert false;
    } else {
      var ka, kb := SortKey(a[0]), SortKey(b[0]);
      assert WithKey(a, ka)[0] == a[0];
      WithKeyMembers(b, ka, WithKey(b, ka)[0]);
      assert kb <= ka;
      assert WithKey(b, kb)[0] == b[0];
      WithKeyMembers(a, kb, WithKey(a, kb)[0]);
      assert a[0] == b[0];
      forall k ensures WithKey(a[1..], k) == WithKey(b[1..], k) {
        var head := if ka == k then [a[0]] else [];
        assert WithKey(a, k) == head + WithKey(a[1..], k);
        assert WithKey(b, k) == head + WithKey(b[1..], k);
        assert WithKey(a[1..], k) == WithKey(a, k)[|head|..];
        assert WithKey(b[1..], k) == WithKey(b, k)[|head|..];
      }
      SortedUnique(a[1..], b[1..]);
      assert a == [a[0]] + a[1..] && b == [b[0]] + b[1..];
    }
  }

  /** What Python's stable sort produces is exactly `StableSort`: a sequence
      is ordered by the key and keeps every equal-key group of `s` in order
      if and only if it is `StableSort(s)`. */
  lemma StableSortCharacterized(s: seq<Task>, r: seq<Task>)
    ensures SortedByKey(r) && KeepsKeyOrder(r, s) <==> r == StableSort(s)
  {
    StableSortCorrect(s);
    if SortedByKey(r) && KeepsKeyOrder(r, s) {
      SortedUnique(r, StableSort(s));
    }
  }

  /** Sorting a list that is already in key order changes nothing; in
      particular sorting twice is sorting once. */
  lemma StableSortIdempotent(s: seq<Task>)
    ensures SortedByKey(s) ==> StableSort(s) == s
    ensures StableSort(StableSort(s)) == StableSort(s)
  {
    StableSortCharacterized(s, s);
    StableSortCorrect(s);
    StableSortCharacterized(StableSort(s), StableSort(s));
  }

  /** After sorting, every H task comes before every M task, M before L, L
      before the rest, and within one rank pending tasks before completed. */
  lemma SortedPrecedence(s: seq<Task>, i: int, j: int)
    requires 0 <= i < |StableSort(s)| && 0 <= j < |StableSort(s)|
    ensures Rank(StableSort(s)[i].priority) < Rank(StableSort(s)[j].priority) ==> i < j
    ensures (Rank(StableSort(s)[i].priority) == Rank(StableSort(s)[j].priority) &&
             !StableSort(s)[i].completed && StableSort(s)[j].completed) ==> i < j
  {
    StableSortCorrect(s);
  }

  /** Each task's subtasks put in display order, the top-level order kept. */
  function SortSubtasks(s: seq<Task>): (r: seq<Task>)
    ensures |r| == |s|
  {
    if s == [] then []
    else [s[0].(subtasks := StableSort(s[0].subtasks))] + SortSubtasks(s[1..])
  }

  /** What `display_todo_list` leaves in the list: the top level sorted, then
      the subtasks of every task sorted. */
  function DisplayOrder(s: seq<Task>): seq<Task> {
    SortSubtasks(StableSort(s))
  }

  lemma {:induction false} SortSubtasksAt(s: seq<Task>, i: int)
    requires 0 <= i < |s|
    ensures SortSubtasks(s)[i] == s[i].(subtasks := StableSort(s[i].subtasks))
  {
    if i > 0 {
      SortSubtasksAt(s[1..], i - 1);
    }
  }

  lemma SortSubtasksKeys(s: seq<Task>)
    ensures SortedByKey(s) ==> SortedByKey(SortSubtasks(s))
  {
    forall i | 0 <= i < |s| ensures SortKey(SortSubtasks(s)[i]) == SortKey(s[i]) {
      SortSubtasksAt(s, i);
    }
  }

  /** The display order keeps lists well formed, and a second display does
      not move anything: the positions shown are the positions addressed. */
  lemma DisplayOrderStable(s: seq<Task>)
    ensures WellFormed(s) ==> WellFormed(DisplayOrder(s))
    ensures DisplayOrder(DisplayOrder(s)) == DisplayOrder(s)
  {
    var sorted := StableSort(s);
    var d := DisplayOrder(s);
    StableSortCorrect(s);
    forall i | 0 <= i < |d| ensures d[i] == sorted[i].(subtasks := StableSort(sorted[i].subtasks)) {
      SortSubtasksAt(sorted, i);
    }
    if WellFormed(s) {
      forall t | t in d ensures WellFormedTask(t) {
        var i :| 0 <= i < |d| && d[i] == t;
        assert sorted[i] in multiset(s);
        assert sorted[i] in s;
        StableSortCorrect(sorted[i].subtasks);
        forall x | x in t.subtasks ensures IsLeaf(x) {
          assert x in multiset(StableSort(sorted[i].subtasks));
          assert x in sorted[i].subtasks;
        }
      }
    }
    SortSubtasksKeys(sorted);
    StableSortIdempotent(d);
    forall i | 0 <= i < |d| ensures d[i].(subtasks := StableSort(d[i].subtasks)) == d[i] {
      StableSortIdempotent(sorted[i].subtasks);
    }
    forall i | 0 <= i < |d| ensures DisplayOrder(d)[i] == d[i] {
      SortSubtasksAt(d, i);
    }
  }
}

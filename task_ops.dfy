/** What `add_todo`, `remove_todo` and `mark_completed` (To-Do.py:46-90) do
    to a list, as functions from the old list to the new one. Positions are
    1-based; a parent position addresses the subtasks of that task. The
    source never checks the parent position, so it is a precondition here. */
module TaskOps {
  import opened TodoModel

  /** The parent position, when given, names a task of the list. */
  predicate ParentInRange(tasks: seq<Task>, parent: Option<int>) {
    parent.Some? ==> 1 <= parent.value <= |tasks|
  }

  /** The position `index` (under `parent`, if given) as a label. */
  function AddressOf(index: int, parent: Option<int>): Label {
    if parent.Some? then Sub(parent.value, index) else Top(index)
  }

  /** `r` is `s` with the element at 0-based `i` taken out, order kept. */
  predicate DropsAt(r: seq<Task>, s: seq<Task>, i: int) {
    0 <= i < |s| && |r| == |s| - 1 && r[..i] == s[..i] && r[i..] == s[i + 1..]
  }

  /** `r` differs from `s` at most in the subtasks of the task at `i`. */
  predicate SameExceptSubtasksOf(r: seq<Task>, s: seq<Task>, i: int) {
    && 0 <= i < |s| && |r| == |s|
    && (forall j :: 0 <= j < |s| && j != i ==> r[j] == s[j])
    && r[i] == s[i].(subtasks := r[i].subtasks)
  }

  /** `r` is `s` with the element at `i` replaced by `x` and nothing else. */
  predicate ReplacesAt(r: seq<Task>, s: seq<Task>, i: int, x: Task) {
    && 0 <= i < |s| && |r| == |s| && r[i] == x
    && forall j :: 0 <= j < |s| && j != i ==> r[j] == s[j]
  }

  /** The task after `mark_completed`: completed, with its due date and
      priority cleared and everything else as before. */
  function Done(t: Task): (d: Task)
    ensures d.completed && d.due == NoDate && d.priority == NoPriority
    ensures d.item == t.item && d.timestamp == t.timestamp && d.subtasks == t.subtasks
  {
    t.(completed := true, due := NoDate, priority := NoPriority)
  }

  /** `add_todo`: the new task goes at the end of the list, or at the end of
      the subtasks of the task at `parent`. */
  function Appended(tasks: seq<Task>, t: Task, parent: Option<int>): (r: seq<Task>)
    requires ParentInRange(tasks, parent)
    ensures parent.None? ==> |r| == |tasks| + 1 && r[..|tasks|] == tasks && r[|tasks|] == t
    ensures parent.Some? ==>
              var p, subs := parent.value - 1, tasks[parent.value - 1].subtasks;
              && SameExceptSubtasksOf(r, tasks, p)
              && |r[p].subtasks| == |subs| + 1
              && r[p].subtasks[..|subs|] == subs
              && r[p].subtasks[|subs|] == t
  {
    match parent
    case None => tasks + [t]
    case Some(p) =>
      var parentTask := tasks[p - 1];
      tasks[p - 1 := parentTask.(subtasks := parentTask.subtasks + [t])]
  }

  /** `remove_todo`: an in-range position loses its task, everything else
      keeps its order; an out-of-range position changes nothing. */
  function Removed(tasks: seq<Task>, index: int, parent: Option<int>): (r: seq<Task>)
    requires ParentInRange(tasks, parent)
    ensures TaskAt(tasks, AddressOf(index, parent)).None? ==> r == tasks
    ensures parent.None? && 1 <= index <= |tasks| ==> DropsAt(r, tasks, index - 1)
    ensures parent.Some? && 1 <= index <= |tasks[parent.value - 1].subtasks| ==>
              var p := parent.value - 1;
              SameExceptSubtasksOf(r, tasks, p) && DropsAt(r[p].subtasks, tasks[p].subtasks, index - 1)
  {
    match parent
    case None =>
      if 1 <= index <= |tasks| then tasks[..index - 1] + tasks[index..] else tasks
    case Some(p) =>
      var parentTask := tasks[p - 1];
      var subs := parentTask.subtasks;
      if 1 <= index <= |subs|
      then tasks[p - 1 := parentTask.(subtasks := subs[..index - 1] + subs[index..])]
      else tasks
  }

  /** `mark_completed`: an in-range position has its task replaced by
      `Done` of it; an out-of-range position changes nothing. */
  function Completed(tasks: seq<Task>, index: int, parent: Option<int>): (r: seq<Task>)
    requires ParentInRange(tasks, parent)
    ensures TaskAt(tasks, AddressOf(index, parent)).None? ==> r == tasks
    ensures parent.None? && 1 <= index <= |tasks| ==>
              ReplacesAt(r, tasks, index - 1, Done(tasks[index - 1]))
    ensures parent.Some? && 1 <= index <= |tasks[parent.value - 1].subtasks| ==>
              var p, subs := parent.value - 1, tasks[parent.value - 1].subtasks;
              SameExceptSubtasksOf(r, tasks, p) && ReplacesAt(r[p].subtasks, subs, index - 1, Done(subs[index - 1]))
  {
    match parent
    case None =>
      if 1 <= index <= |tasks| then tasks[index - 1 := Done(tasks[index - 1])] else tasks
    case Some(p) =>
      var parentTask := tasks[p - 1];
      var subs := parentTask.subtasks;
      if 1 <= index <= |subs|
      then tasks[p - 1 := parentTask.(subtasks := subs[index - 1 := Done(subs[index - 1])])]
      else tasks
  }

  /** Number of tasks in a list, subtasks included. */
  function TotalCount(tasks: seq<Task>): nat {
    if tasks == [] then 0
    else TotalCount(tasks[..|tasks| - 1]) + 1 + |tasks[|tasks| - 1].subtasks|
  }

  lemma {:induction false} TotalCountConcat(a: seq<Task>, b: seq<Task>)
    ensures TotalCount(a + b) == TotalCount(a) + TotalCount(b)
  {
    if b == [] {
      assert a + b == a;
    } else {
      TotalCountConcat(a, b[..|b| - 1]);
      assert (a + b)[..|a + b| - 1] == a + b[..|b| - 1];
    }
  }

  lemma TotalCountReplace(s: seq<Task>, i: int, x: Task)
    requires 0 <= i < |s|
    ensures TotalCount(s[i := x]) == TotalCount(s) - |s[i].subtasks| + |x.subtasks|
  {
    assert s == s[..i] + [s[i]] + s[i + 1..];
    assert s[i := x] == s[..i] + [x] + s[i + 1..];
    TotalCountConcat(s[..i] + [s[i]], s[i + 1..]);
    TotalCountConcat(s[..i], [s[i]]);
    TotalCountConcat(s[..i] + [x], s[i + 1..]);
    TotalCountConcat(s[..i], [x]);
  }

  /** Adding creates exactly one task, which the next display shows at the
      end of the list or of its parent's subtasks; removing at that position
      undoes the addition. */
  lemma AppendedOneTask(tasks: seq<Task>, t: Task, parent: Option<int>)
    requires ParentInRange(tasks, parent)
    requires t.subtasks == []
    ensures TotalCount(Appended(tasks, t, parent)) == TotalCount(tasks) + 1
    ensures parent.None? ==>
              TaskAt(Appended(tasks, t, parent), Top(|tasks| + 1)) == Some(t) &&
              Removed(Appended(tasks, t, parent), |tasks| + 1, parent) == tasks
    ensures parent.Some? ==>
              var n := |tasks[parent.value - 1].subtasks| + 1;
              TaskAt(Appended(tasks, t, parent), Sub(parent.value, n)) == Some(t) &&
              Removed(Appended(tasks, t, parent), n, parent) == tasks
  {
    var r := Appended(tasks, t, parent);
    match parent
    case None =>
      TotalCountConcat(tasks, [t]);
      assert r[..|tasks|] == tasks;
    case Some(p) =>
      var parentTask := tasks[p - 1];
      TotalCountReplace(tasks, p - 1, parentTask.(subtasks := parentTask.subtasks + [t]));
      var n := |parentTask.subtasks|;
      assert (parentTask.subtasks + [t])[..n] == parentTask.subtasks;
      assert (parentTask.subtasks + [t])[n + 1..] == [];
      var subs' := parentTask.subtasks + [t];
      assert r[p - 1].subtasks == subs';
      assert subs'[..n] + subs'[n + 1..] == parentTask.subtasks;
      assert r[p - 1].(subtasks := parentTask.subtasks) == parentTask;
      assert Removed(r, n + 1, parent) == r[p - 1 := parentTask];
      assert r[p - 1 := parentTask] == tasks;
  }

  /** A new task keeps the list well formed: subtasks never get subtasks. */
  lemma AppendedWellFormed(tasks: seq<Task>, item: string, timestamp: string, due: Due, priority: Priority, parent: Option<int>)
    requires ParentInRange(tasks, parent)
    requires WellFormed(tasks)
    ensures WellFormed(Appended(tasks, NewTask(item, timestamp, due, priority), parent))
  {
    var t := NewTask(item, timestamp, due, priority);
    var r := Appended(tasks, t, parent);
    forall x | x in r ensures WellFormedTask(x) {
      var i :| 0 <= i < |r| && r[i] == x;
      if parent.Some? && i == parent.value - 1 {
        assert tasks[i] in tasks;
        forall y | y in x.subtasks ensures IsLeaf(y) {
          var j :| 0 <= j < |x.subtasks| && x.subtasks[j] == y;
          if j < |tasks[i].subtasks| {
            assert y == tasks[i].subtasks[j];
          }
        }
      } else if i < |tasks| {
        assert x == tasks[i];
      }
    }
  }

  /** Removing a top-level task removes it with its subtasks; removing a
      subtask removes one task; the list stays well formed. */
  lemma RemovedCount(tasks: seq<Task>, index: int, parent: Option<int>)
    requires ParentInRange(tasks, parent)
    ensures parent.None? && 1 <= index <= |tasks| ==>
              TotalCount(Removed(tasks, index, parent)) == TotalCount(tasks) - 1 - |tasks[index - 1].subtasks|
    ensures parent.Some? && 1 <= index <= |tasks[parent.value - 1].subtasks| ==>
              TotalCount(Removed(tasks, index, parent)) == TotalCount(tasks) - 1
    ensures WellFormed(tasks) ==> WellFormed(Removed(tasks, index, parent))
  {
    match parent
    case None =>
      if 1 <= index <= |tasks| {
        RemovedTop(tasks, index);
      }
    case Some(p) =>
      if 1 <= index <= |tasks[p - 1].subtasks| {
        RemovedSub(tasks, index, p);
      }
  }

  /** Removing a top-level task drops it and its subtasks from the count. */
  lemma RemovedTop(tasks: seq<Task>, index: int)
    requires 1 <= index <= |tasks|
    ensures TotalCount(Removed(tasks, index, None)) == TotalCount(tasks) - 1 - |tasks[index - 1].subtasks|
    ensures WellFormed(tasks) ==> WellFormed(Removed(tasks, index, None))
  {
    var r := Removed(tasks, index, None);
    assert tasks == tasks[..index - 1] + [tasks[index - 1]] + tasks[index..];
    TotalCountConcat(tasks[..index - 1] + [tasks[index - 1]], tasks[index..]);
    TotalCountConcat(tasks[..index - 1], [tasks[index - 1]]);
    TotalCountConcat(tasks[..index - 1], tasks[index..]);
    forall x | x in r ensures x in tasks {
      var i :| 0 <= i < |r| && r[i] == x;
      if i < index - 1 {
        assert x == r[..index - 1][i];
      } else {
        assert x == r[index - 1..][i - (index - 1)];
      }
    }
  }

  /** Removing a subtask drops exactly one task from the count. */
  lemma RemovedSub(tasks: seq<Task>, index: int, p: int)
    requires 1 <= p <= |tasks| && 1 <= index <= |tasks[p - 1].subtasks|
    ensures TotalCount(Removed(tasks, index, Some(p))) == TotalCount(tasks) - 1
    ensures WellFormed(tasks) ==> WellFormed(Removed(tasks, index, Some(p)))
  {
    var subs := tasks[p - 1].subtasks;
    assert Removed(tasks, index, Some(p)) == tasks[p - 1 := tasks[p - 1].(subtasks := subs[..index - 1] + subs[index..])];
    DropSubtask(tasks, index, p);
  }

  /** The list with subtask `index` of task `p` taken out. */
  lemma DropSubtask(tasks: seq<Task>, index: int, p: int)
    requires 1 <= p <= |tasks| && 1 <= index <= |tasks[p - 1].subtasks|
    ensures var subs := tasks[p - 1].subtasks;
            var r := tasks[p - 1 := tasks[p - 1].(subtasks := subs[..index - 1] + subs[index..])];
            TotalCount(r) == TotalCount(tasks) - 1 && (WellFormed(tasks) ==> WellFormed(r))
  {
    var parentTask := tasks[p - 1];
    var subs := parentTask.subtasks;
    var x := parentTask.(subtasks := subs[..index - 1] + subs[index..]);
    TotalCountReplace(tasks, p - 1, x);
    if WellFormed(tasks) {
      assert WellFormedTask(parentTask);
      forall y | y in x.subtasks ensures y in subs {
        var j :| 0 <= j < |x.subtasks| && x.subtasks[j] == y;
        if j < index - 1 {
          assert y == x.subtasks[..index - 1][j];
        } else {
          assert y == x.subtasks[index - 1..][j - (index - 1)];
        }
      }
      ReplaceWellFormed(tasks, p - 1, x);
    }
  }

  /** Putting a well-formed task in place of another keeps a list well
      formed. */
  lemma ReplaceWellFormed(tasks: seq<Task>, i: int, x: Task)
    requires WellFormed(tasks) && 0 <= i < |tasks| && WellFormedTask(x)
    ensures WellFormed(tasks[i := x])
  {
    forall t | t in tasks[i := x] ensures WellFormedTask(t) {
      var k :| 0 <= k < |tasks| && tasks[i := x][k] == t;
      if k != i {
        assert t == tasks[k];
      }
    }
  }

  /** Completing keeps the list well formed and the task count, and doing it
      twice is doing it once. */
  lemma CompletedFacts(tasks: seq<Task>, index: int, parent: Option<int>)
    requires ParentInRange(tasks, parent)
    ensures TotalCount(Completed(tasks, index, parent)) == TotalCount(tasks)
    ensures WellFormed(tasks) ==> WellFormed(Completed(tasks, index, parent))
    ensures Completed(Completed(tasks, index, parent), index, parent) == Completed(tasks, index, parent)
  {
    match parent
    case None =>
      if 1 <= index <= |tasks| {
        CompletedTop(tasks, index);
      }
    case Some(p) =>
      if 1 <= index <= |tasks[p - 1].subtasks| {
        CompletedSub(tasks, index, p);
      }
  }

  lemma CompletedTop(tasks: seq<Task>, index: int)
    requires 1 <= index <= |tasks|
    ensures TotalCount(Completed(tasks, index, None)) == TotalCount(tasks)
    ensures WellFormed(tasks) ==> WellFormed(Completed(tasks, index, None))
    ensures Completed(Completed(tasks, index, None), index, None) == Completed(tasks, index, None)
  {
    var r := Completed(tasks, index, None);
    TotalCountReplace(tasks, index - 1, Done(tasks[index - 1]));
    if WellFormed(tasks) {
      assert tasks[index - 1] in tasks;
      forall x | x in r ensures WellFormedTask(x) {
        var i :| 0 <= i < |r| && r[i] == x;
        if i != index - 1 {
          assert x == tasks[i];
        }
      }
    }
  }

  lemma CompletedSub(tasks: seq<Task>, index: int, p: int)
    requires 1 <= p <= |tasks| && 1 <= index <= |tasks[p - 1].subtasks|
    ensures TotalCount(Completed(tasks, index, Some(p))) == TotalCount(tasks)
    ensures WellFormed(tasks) ==> WellFormed(Completed(tasks, index, Some(p)))
    ensures Completed(Completed(tasks, index, Some(p)), index, Some(p)) == Completed(tasks, index, Some(p))
  {
    var r := Completed(tasks, index, Some(p));
    var parentTask := tasks[p - 1];
    var subs := parentTask.subtasks;
    var subs' := subs[index - 1 := Done(subs[index - 1])];
    TotalCountReplace(tasks, p - 1, parentTask.(subtasks := subs'));
    assert subs'[index - 1 := Done(subs'[index - 1])] == subs';
    assert r[p - 1 := r[p - 1].(subtasks := subs')] == r;
    if WellFormed(tasks) {
      assert parentTask in tasks;
      assert subs[index - 1] in subs;
      forall x | x in r ensures WellFormedTask(x) {
        var i :| 0 <= i < |r| && r[i] == x;
        if i != p - 1 {
          assert x == tasks[i];
        } else {
          forall y | y in x.subtasks ensures IsLeaf(y) {
            var j :| 0 <= j < |x.subtasks| && x.subtasks[j] == y;
            if j != index - 1 {
              assert y == subs[j];
            }
          }
        }
      }
    }
  }
}

/** `calculate_percentage_completed` (To-Do.py:177-182): the share of a
    task's immediate subtasks that are completed, as a percentage. The
    source divides floats; here the division is exact. */
module Progress {
  import opened TodoModel
  import opened TaskOps

  /** How many of `s` are completed. */
  function CompletedCount(s: seq<Task>): (n: nat)
    ensures n <= |s|
    ensures n == |s| <==> forall i :: 0 <= i < |s| ==> s[i].completed
    ensures n == 0 <==> forall i :: 0 <= i < |s| ==> !s[i].completed
  {
    if s == [] then 0
    else CompletedCount(s[..|s| - 1]) + (if s[|s| - 1].completed then 1 else 0)
  }

  /** 0 for a task without subtasks, otherwise completed count times 100
      over the number of subtasks. */
  function PercentageCompleted(t: Task): (p: real)
    ensures 0.0 <= p <= 100.0
    ensures t.subtasks == [] ==> p == 0.0
    ensures t.subtasks != [] ==> p * (|t.subtasks| as real) == 100.0 * (CompletedCount(t.subtasks) as real)
    ensures p == 100.0 <==> t.subtasks != [] && forall i :: 0 <= i < |t.subtasks| ==> t.subtasks[i].completed
    ensures p == 0.0 <==> forall i :: 0 <= i < |t.subtasks| ==> !t.subtasks[i].completed
  {
    if t.subtasks == [] then 0.0
    else
      var c, n := CompletedCount(t.subtasks), |t.subtasks|;
      ShareBounds(c as real, n as real);
      (c as real / n as real) * 100.0
  }

  lemma NonPositiveFactor(x: real, y: real)
    requires 0.0 < y && x * y <= 0.0
    ensures x <= 0.0
  {
  }

  /** The arithmetic of the percentage: c out of n completed, 0 < n. */
  lemma ShareBounds(c: real, n: real)
    requires 0.0 <= c <= n && 0.0 < n
    ensures var p := (c / n) * 100.0;
            && 0.0 <= p <= 100.0
            && p * n == 100.0 * c
            && (p == 100.0 <==> c == n)
            && (p == 0.0 <==> c == 0.0)
  {
    var q := c / n;
    assert q * n == c;
    var d := q - 1.0;
    assert d * n == q * n - n;
    assert d * n == c - n;
    NonPositiveFactor(d, n);
  }

  lemma {:induction false} CompletedCountConcat(a: seq<Task>, b: seq<Task>)
    ensures CompletedCount(a + b) == CompletedCount(a) + CompletedCount(b)
  {
    if b == [] {
      assert a + b == a;
    } else {
      CompletedCountConcat(a, b[..|b| - 1]);
      assert (a + b)[..|a + b| - 1] == a + b[..|b| - 1];
    }
  }

  /** Completing a pending subtask adds exactly one to its parent's
      completed count; completing a completed one changes nothing. */
  lemma CompletingSubtaskCounts(tasks: seq<Task>, index: int, p: int)
    requires 1 <= p <= |tasks| && 1 <= index <= |tasks[p - 1].subtasks|
    ensures var subs := tasks[p - 1].subtasks;
            CompletedCount(Completed(tasks, index, Some(p))[p - 1].subtasks) ==
              CompletedCount(subs) + (if subs[index - 1].completed then 0 else 1)
  {
    var subs := tasks[p - 1].subtasks;
    var i := index - 1;
    var subs' := subs[i := Done(subs[i])];
    assert subs == subs[..i] + [subs[i]] + subs[i + 1..];
    assert subs' == subs[..i] + [Done(subs[i])] + subs[i + 1..];
    CompletedCountConcat(subs[..i] + [subs[i]], subs[i + 1..]);
    CompletedCountConcat(subs[..i], [subs[i]]);
    CompletedCountConcat(subs[..i] + [Done(subs[i])], subs[i + 1..]);
    CompletedCountConcat(subs[..i], [Done(subs[i])]);
  }

  /** A task's only subtask, added and then completed: 0% before, 100%
      after. */
  lemma OneSubtaskScenario(tasks: seq<Task>, p: int, item: string, timestamp: string, due: Due, priority: Priority)
    requires 1 <= p <= |tasks| && tasks[p - 1].subtasks == []
    ensures var added := Appended(tasks, NewTask(item, timestamp, due, priority), Some(p));
            PercentageCompleted(added[p - 1]) == 0.0 &&
            PercentageCompleted(Completed(added, 1, Some(p))[p - 1]) == 100.0
  {
    var added := Appended(tasks, NewTask(item, timestamp, due, priority), Some(p));
    assert added[p - 1].subtasks == [NewTask(item, timestamp, due, priority)];
  }
}

/** The in-memory data model of the to-do application: tasks with at most
    one level of subtasks, the lists that hold them, and the rank used to
    order them for display. */
module TodoModel {

  datatype Option<+T> = None | Some(value: T)

  /** A task's due date as the application keeps it: `None` (the default and
      the value after completion), the empty string the menu stores when the
      user skips the prompt, or a parsed calendar date, here a day number so
      that "tomorrow" is `day + 1`. */
  datatype Due = NoDate | Blank | On(day: int)

  /** A due date is acted upon only when it is truthy in the source: `None`
      and the empty string are not. */
  predicate IsSet(d: Due) {
    d.On?
  }

  /** A priority: `None`, or the text the menu stored, which is one of
      "H", "M", "L" or the empty string when it came through the menu. */
  datatype Priority = NoPriority | Code(code: string)

  /** One task record: `item`, `timestamp`, `completed`, `due_date`,
      `priority` and `subtasks`. */
  datatype Task = Task(
    item: string,
    timestamp: string,
    completed: bool,
    due: Due,
    priority: Priority,
    subtasks: seq<Task>)

  /** One name/list pair of the store, in the store's insertion order. */
  datatype Entry = Entry(name: string, tasks: seq<Task>)

  /** Where a task sits in a list: a 1-based top-level position, or a
      1-based parent position and a 1-based position among its subtasks. */
  datatype Label = Top(index: int) | Sub(parent: int, index: int)

  /** A task created by the add operation: pending, no subtasks. */
  function NewTask(item: string, timestamp: string, due: Due, priority: Priority): Task {
    Task(item, timestamp, false, due, priority, [])
  }

  /** The priority rank of the display sort: H, M, L first, anything else
      (None, the empty string, an unknown code) last. */
  function Rank(p: Priority): (r: int)
    ensures 1 <= r <= 4
    ensures p == Code("H") ==> r == 1
    ensures p == Code("M") ==> r == 2
    ensures p == Code("L") ==> r == 3
    ensures r == 4 <==> p !in {Code("H"), Code("M"), Code("L")}
  {
    match p
    case Code(c) =>
      if c == "H" then 1 else if c == "M" then 2 else if c == "L" then 3 else 4
    case NoPriority => 4
  }

  /** The display sort key (rank, completed) packed into one integer. */
  function SortKey(t: Task): int {
    2 * Rank(t.priority) + (if t.completed then 1 else 0)
  }

  /** The packed key orders tasks exactly as the pair (rank, completed)
      does under lexicographic comparison, with False before True. */
  lemma SortKeyIsLexicographic(a: Task, b: Task)
    ensures SortKey(a) <= SortKey(b) <==>
              Rank(a.priority) < Rank(b.priority) ||
              (Rank(a.priority) == Rank(b.priority) && (!a.completed || b.completed))
    ensures SortKey(a) == SortKey(b) <==>
              Rank(a.priority) == Rank(b.priority) && a.completed == b.completed
  {
  }

  /** A completed task carries neither a due date nor a priority. */
  predicate Consistent(t: Task) {
    t.completed ==> t.due == NoDate && t.priority == NoPriority
  }

  /** A subtask holds no subtasks of its own and is consistent. */
  predicate IsLeaf(s: Task) {
    s.subtasks == [] && Consistent(s)
  }

  /** A well-formed top-level task: consistent, subtasks nested one level. */
  predicate WellFormedTask(t: Task) {
    Consistent(t) && forall s :: s in t.subtasks ==> IsLeaf(s)
  }

  /** The invariant of a list: every task well formed. */
  predicate WellFormed(tasks: seq<Task>) {
    forall t :: t in tasks ==> WellFormedTask(t)
  }

  /** The task a label designates in a list, or None when a position is out
      of range: the addressing the mutating operations use. */
  function TaskAt(tasks: seq<Task>, l: Label): (r: Option<Task>)
    ensures l.Top? ==> (r.Some? <==> 1 <= l.index <= |tasks|)
    ensures l.Top? && r.Some? ==> r.value == tasks[l.index - 1]
    ensures l.Sub? ==>
              (r.Some? <==> 1 <= l.parent <= |tasks| && 1 <= l.index <= |tasks[l.parent - 1].subtasks|)
    ensures l.Sub? && r.Some? ==> r.value == tasks[l.parent - 1].subtasks[l.index - 1]
    ensures r.Some? && l.Top? ==> r.value in tasks
    ensures r.Some? && l.Sub? ==> 1 <= l.parent <= |tasks| && r.value in tasks[l.parent - 1].subtasks
  {
    match l
    case Top(i) =>
      if 1 <= i <= |tasks| then Some(tasks[i - 1]) else None
    case Sub(p, i) =>
      if 1 <= p <= |tasks| && 1 <= i <= |tasks[p - 1].subtasks|
      then Some(tasks[p - 1].subtasks[i - 1]) else None
  }

  /** The names of a store are pairwise distinct, as the keys of a dict are. */
  predicate DistinctNames(entries: seq<Entry>) {
    forall i, j :: 0 <= i < j < |entries| ==> entries[i].name != entries[j].name
  }
}

/** The store-wide queries `search_tasks`, `filter_tasks` and
    `check_reminders` (To-Do.py:132-175). Each walks the lists in store
    order, the tasks of a list in order and, after each task, its subtasks.
    `Traversal` is that walk written once as a reference; each query method
    is proved to return a selection of it. */
module Queries {
  import opened TodoModel
  import opened SeqFacts
  import opened TaskOps

  /** One result: the list's name, the position shown for the task (an int
      for a task, the text `str(idx) + chr(96 + sub_idx)` for a subtask, kept
      here as the pair of positions) and the task record. */
  datatype Hit = Hit(listName: string, place: Label, task: Task)

  /** What a query keeps. */
  datatype Criterion =
    | Keyword(keyword: string)   // search: case-insensitive substring of the item
    | Status(completed: bool)    // filter: completion flag equals the status
    | DueSoon(today: int)        // reminders: pending, due date set, today or tomorrow

  /** ASCII lower-casing of one character. */
  function LowerChar(c: char): char {
    if 'A' <= c <= 'Z' then (c as int + 32) as char else c
  }

  /** `str.lower` on ASCII: no upper-case letter is left, and every other
      character stays as it was. */
  function Lower(s: string): (r: string)
    ensures |r| == |s|
    ensures forall i :: 0 <= i < |r| ==> !('A' <= r[i] <= 'Z')
    ensures forall i :: 0 <= i < |s| && !('A' <= s[i] <= 'Z') ==> r[i] == s[i]
    ensures forall i :: 0 <= i < |s| && 'A' <= s[i] <= 'Z' ==> r[i] == (s[i] as int + 32) as char
  {
    seq(|s|, i requires 0 <= i < |s| => LowerChar(s[i]))
  }

  /** `needle` occurs in `hay` starting at position `i`. */
  predicate OccursAt(needle: string, hay: string, i: int) {
    0 <= i && i + |needle| <= |hay| && hay[i..i + |needle|] == needle
  }

  /** Python's `needle in hay` on strings. */
  function IsSubstring(needle: string, hay: string): (b: bool)
    ensures b <==> exists i :: OccursAt(needle, hay, i)
    decreases |hay|
  {
    if |needle| > |hay| then false
    else if hay[..|needle|] == needle then
      assert OccursAt(needle, hay, 0);
      true
    else
      var b := IsSubstring(needle, hay[1..]);
      assert forall i :: OccursAt(needle, hay[1..], i) ==> OccursAt(needle, hay, i + 1);
      assert forall i :: 1 <= i ==> OccursAt(needle, hay, i) ==> OccursAt(needle, hay[1..], i - 1);
      b
  }

  predicate Accepts(c: Criterion, t: Task) {
    match c
    case Keyword(k) => IsSubstring(Lower(k), Lower(t.item))
    case Status(done) => t.completed == done
    case DueSoon(today) => IsSet(t.due) && !t.completed && (t.due.day == today || t.due.day == today + 1)
  }

  /** The subtasks of the task at position `idx`, labelled `idx` a, b, ... */
  function SubtaskHits(name: string, idx: int, subs: seq<Task>): (r: seq<Hit>)
    ensures |r| == |subs|
    ensures forall j :: 0 <= j < |subs| ==> r[j] == Hit(name, Sub(idx, j + 1), subs[j])
  {
    seq(|subs|, j requires 0 <= j < |subs| => Hit(name, Sub(idx, j + 1), subs[j]))
  }

  /** A task, then its subtasks. */
  function TaskHits(name: string, idx: int, t: Task): seq<Hit> {
    [Hit(name, Top(idx), t)] + SubtaskHits(name, idx, t.subtasks)
  }

  /** Every task and subtask of one list, in walk order. */
  function ListHits(name: string, tasks: seq<Task>): seq<Hit> {
    if tasks == [] then []
    else ListHits(name, tasks[..|tasks| - 1]) + TaskHits(name, |tasks|, tasks[|tasks| - 1])
  }

  /** Every task and subtask of the store, in walk order. */
  function Traversal(entries: seq<Entry>): seq<Hit> {
    if entries == [] then []
    else
      var last := entries[|entries| - 1];
      Traversal(entries[..|entries| - 1]) + ListHits(last.name, last.tasks)
  }

  /** The hits a criterion keeps, in order. */
  function Select(hits: seq<Hit>, c: Criterion): seq<Hit> {
    if hits == [] then []
    else
      var last := hits[|hits| - 1];
      Select(hits[..|hits| - 1], c) + (if Accepts(c, last.task) then [last] else [])
  }

  /** `h` names a task of the store: its list is there and its label
      designates that task in that list. */
  ghost predicate Locates(entries: seq<Entry>, h: Hit) {
    exists k :: 0 <= k < |entries| && entries[k].name == h.listName && TaskAt(entries[k].tasks, h.place) == Some(h.task)
  }

  lemma SelectAppend(hits: seq<Hit>, h: Hit, c: Criterion)
    ensures Select(hits + [h], c) == Select(hits, c) + (if Accepts(c, h.task) then [h] else [])
  {
    assert (hits + [h])[..|hits|] == hits;
  }

  lemma {:induction false} SelectMembers(hits: seq<Hit>, c: Criterion, h: Hit)
    ensures h in Select(hits, c) <==> h in hits && Accepts(c, h.task)
  {
    if hits != [] {
      var init := hits[..|hits| - 1];
      SelectMembers(init, c, h);
      assert hits == init + [hits[|hits| - 1]];
    }
  }

  /** Filtering by True and by False splits the walk: each task or subtask
      falls in exactly one of the two results. */
  lemma {:induction false} StatusPartition(hits: seq<Hit>)
    ensures |Select(hits, Status(true))| + |Select(hits, Status(false))| == |hits|
  {
    if hits != [] {
      StatusPartition(hits[..|hits| - 1]);
    }
  }

  /** The walk of a list visits as many places as the list has tasks and
      subtasks. */
  lemma {:induction false} ListHitsCount(name: string, tasks: seq<Task>)
    ensures |ListHits(name, tasks)| == TotalCount(tasks)
  {
    if tasks != [] {
      ListHitsCount(name, tasks[..|tasks| - 1]);
    }
  }

  /** Number of tasks in the store, subtasks included. */
  function StoreCount(entries: seq<Entry>): nat {
    if entries == [] then 0
    else StoreCount(entries[..|entries| - 1]) + TotalCount(entries[|entries| - 1].tasks)
  }

  lemma {:induction false} TraversalCount(entries: seq<Entry>)
    ensures |Traversal(entries)| == StoreCount(entries)
  {
    if entries != [] {
      var last := entries[|entries| - 1];
      TraversalCount(entries[..|entries| - 1]);
      ListHitsCount(last.name, last.tasks);
    }
  }

  /** Filtering the store by True and by False together returns as many
      results as it has tasks and subtasks. */
  lemma FilterCountsStore(entries: seq<Entry>)
    ensures |Select(Traversal(entries), Status(true))| + |Select(Traversal(entries), Status(false))| ==
            StoreCount(entries)
  {
    StatusPartition(Traversal(entries));
    TraversalCount(entries);
  }

  lemma TaskAtPrefix(tasks: seq<Task>, l: Label)
    requires tasks != []
    ensures var init := tasks[..|tasks| - 1];
            TaskAt(init, l).Some? ==> TaskAt(tasks, l) == TaskAt(init, l)
    ensures var init := tasks[..|tasks| - 1];
            TaskAt(tasks, l).Some? && (l.Top? ==> l.index < |tasks|) && (l.Sub? ==> l.parent < |tasks|) ==>
              TaskAt(init, l) == TaskAt(tasks, l)
  {
  }

  /** The walk of a list visits exactly the tasks and subtasks the labels
      designate, each under its own label. */
  lemma {:induction false} ListHitsMembers(name: string, tasks: seq<Task>, h: Hit)
    ensures h in ListHits(name, tasks) <==> h.listName == name && TaskAt(tasks, h.place) == Some(h.task)
  {
    if tasks != [] {
      var n := |tasks|;
      var init := tasks[..n - 1];
      ListHitsMembers(name, init, h);
      TaskAtPrefix(tasks, h.place);
      TaskHitsMembers(name, tasks, h);
      assert ListHits(name, tasks) == ListHits(name, init) + TaskHits(name, n, tasks[n - 1]);
    }
  }

  /** The last task's hits are the labels with that task's position. */
  lemma TaskHitsMembers(name: string, tasks: seq<Task>, h: Hit)
    requires tasks != []
    ensures var n := |tasks|;
            h in TaskHits(name, n, tasks[n - 1]) <==>
              && h.listName == name && TaskAt(tasks, h.place) == Some(h.task)
              && (if h.place.Top? then h.place.index else h.place.parent) == n
  {
    var n := |tasks|;
    var last := tasks[n - 1];
    var subs := SubtaskHits(name, n, last.subtasks);
    var th := [Hit(name, Top(n), last)] + subs;
    if h in th && h != th[0] {
      var j :| 0 <= j < |subs| && subs[j] == h;
      assert h == Hit(name, Sub(n, j + 1), last.subtasks[j]);
    }
    if h.listName == name && TaskAt(tasks, h.place) == Some(h.task) && h.place.Sub? && h.place.parent == n {
      var j := h.place.index - 1;
      assert h == subs[j];
    }
  }

  /** The walk of the store visits exactly the tasks and subtasks of its
      lists, each under its list's name and its own label. */
  lemma {:induction false} TraversalMembers(entries: seq<Entry>, h: Hit)
    ensures h in Traversal(entries) <==> Locates(entries, h)
  {
    if entries != [] {
      var n := |entries|;
      var init, last := entries[..n - 1], entries[n - 1];
      TraversalMembers(init, h);
      ListHitsMembers(last.name, last.tasks, h);
      if Locates(entries, h) && !(last.name == h.listName && TaskAt(last.tasks, h.place) == Some(h.task)) {
        var k :| 0 <= k < n && entries[k].name == h.listName && TaskAt(entries[k].tasks, h.place) == Some(h.task);
        assert init[k] == entries[k];
      }
      if Locates(init, h) {
        var k :| 0 <= k < n - 1 && init[k].name == h.listName && TaskAt(init[k].tasks, h.place) == Some(h.task);
        assert entries[k] == init[k];
      }
    }
  }

  /** The results a query method returns for criterion `c`: exactly the
      tasks and subtasks of the store that `c` accepts, each with its list
      and label. */
  lemma QueryResults(entries: seq<Entry>, c: Criterion, h: Hit)
    ensures h in Select(Traversal(entries), c) <==> Locates(entries, h) && Accepts(c, h.task)
  {
    SelectMembers(Traversal(entries), c, h);
    TraversalMembers(entries, h);
  }

  /** No two hits name the same position of the same list. */
  predicate OncePerPlace(hits: seq<Hit>) {
    forall i, j :: 0 <= i < j < |hits| ==> hits[i].listName != hits[j].listName || hits[i].place != hits[j].place
  }

  lemma OncePerPlaceConcat(a: seq<Hit>, b: seq<Hit>)
    requires OncePerPlace(a) && OncePerPlace(b)
    requires forall x, y :: x in a && y in b ==> x.listName != y.listName || x.place != y.place
    ensures OncePerPlace(a + b)
  {
    var ab := a + b;
    forall i, j | 0 <= i < j < |ab| ensures ab[i].listName != ab[j].listName || ab[i].place != ab[j].place {
      if j < |a| {
        assert ab[i] == a[i] && ab[j] == a[j];
      } else if i >= |a| {
        assert ab[i] == b[i - |a|] && ab[j] == b[j - |a|];
      } else {
        assert ab[i] == a[i] && ab[j] == b[j - |a|];
      }
    }
  }

  /** The walk of a list visits each position once. */
  lemma {:induction false} ListHitsOnce(name: string, tasks: seq<Task>)
    ensures OncePerPlace(ListHits(name, tasks))
  {
    if tasks != [] {
      var n := |tasks|;
      var init, last := tasks[..n - 1], tasks[n - 1];
      ListHitsOnce(name, init);
      var a := ListHits(name, init);
      var subs := SubtaskHits(name, n, last.subtasks);
      var b := [Hit(name, Top(n), last)] + subs;
      forall i, j | 0 <= i < j < |b| ensures b[i].place != b[j].place {
        assert b[j] == subs[j - 1];
        if i > 0 {
          assert b[i] == subs[i - 1];
        }
      }
      forall x, y | x in a && y in b ensures x.listName != y.listName || x.place != y.place {
        ListHitsMembers(name, init, x);
        if y != b[0] {
          var j :| 0 <= j < |subs| && subs[j] == y;
        }
      }
      OncePerPlaceConcat(a, b);
      assert ListHits(name, tasks) == a + b;
    }
  }

  /** With distinct list names, the walk of the store visits each position
      of each list once. */
  lemma {:induction false} TraversalOnce(entries: seq<Entry>)
    requires DistinctNames(entries)
    ensures OncePerPlace(Traversal(entries))
  {
    if entries != [] {
      var n := |entries|;
      var init, last := entries[..n - 1], entries[n - 1];
      assert forall i :: 0 <= i < n - 1 ==> init[i] == entries[i];
      TraversalOnce(init);
      var a, b := Traversal(init), ListHits(last.name, last.tasks);
      ListHitsOnce(last.name, last.tasks);
      forall x, y | x in a && y in b ensures x.listName != y.listName {
        TraversalMembers(init, x);
        ListHitsMembers(last.name, last.tasks, y);
        var k :| 0 <= k < n - 1 && init[k].name == x.listName && TaskAt(init[k].tasks, x.place) == Some(x.task);
        assert entries[k].name == x.listName;
      }
      OncePerPlaceConcat(a, b);
    }
  }

  /** Keeping some hits keeps them at distinct positions. */
  lemma {:induction false} SelectOnce(hits: seq<Hit>, c: Criterion)
    requires OncePerPlace(hits)
    ensures OncePerPlace(Select(hits, c))
  {
    if hits != [] {
      var n := |hits|;
      var init, last := hits[..n - 1], hits[n - 1];
      assert forall i :: 0 <= i < n - 1 ==> init[i] == hits[i];
      SelectOnce(init, c);
      var kept := if Accepts(c, last.task) then [last] else [];
      forall x, y | x in Select(init, c) && y in kept ensures x.listName != y.listName || x.place != y.place {
        SelectMembers(init, c, x);
        var i :| 0 <= i < n - 1 && init[i] == x;
        assert hits[i] == x;
      }
      OncePerPlaceConcat(Select(init, c), kept);
    }
  }

  /** With distinct list names, a query lists each accepted task or subtask
      once: with `QueryResults`, exactly once. */
  lemma ResultsOncePerPlace(entries: seq<Entry>, c: Criterion)
    requires DistinctNames(entries)
    ensures OncePerPlace(Select(Traversal(entries), c))
  {
    TraversalOnce(entries);
    SelectOnce(Traversal(entries), c);
  }

  lemma TraversalStep(entries: seq<Entry>, k: int)
    requires 0 <= k < |entries|
    ensures Traversal(entries[..k + 1]) == Traversal(entries[..k]) + ListHits(entries[k].name, entries[k].tasks)
  {
    assert entries[..k + 1][..k] == entries[..k];
  }

  lemma ListHitsStep(name: string, tasks: seq<Task>, i: int)
    requires 0 <= i < |tasks|
    ensures ListHits(name, tasks[..i + 1]) == ListHits(name, tasks[..i]) + TaskHits(name, i + 1, tasks[i])
  {
    assert tasks[..i + 1][..i] == tasks[..i];
  }

  lemma SubtaskHitsStep(name: string, idx: int, subs: seq<Task>, j: int)
    requires 0 <= j < |subs|
    ensures SubtaskHits(name, idx, subs[..j + 1]) == SubtaskHits(name, idx, subs[..j]) + [Hit(name, Sub(idx, j + 1), subs[j])]
  {
  }

  lemma {:induction false} SelectConcat(a: seq<Hit>, b: seq<Hit>, c: Criterion)
    ensures Select(a + b, c) == Select(a, c) + Select(b, c)
  {
    if b == [] {
      assert a + b == a;
    } else {
      SelectConcat(a, b[..|b| - 1], c);
      assert (a + b)[..|a + b| - 1] == a + b[..|b| - 1];
    }
  }

  /** The walk over the subtasks of the task at position `idx` inside
      `search_tasks` and `filter_tasks`. */
  method CollectSubtasks(name: string, idx: int, subtasks: seq<Task>, c: Criterion) returns (found: seq<Hit>)
    ensures found == Select(SubtaskHits(name, idx, subtasks), c)
  {
    found := [];
    var subIdx := 1;
    while subIdx <= |subtasks|
      invariant 1 <= subIdx <= |subtasks| + 1
      invariant found == Select(SubtaskHits(name, idx, subtasks[..subIdx - 1]), c)
    {
      var subtask := subtasks[subIdx - 1];
      var subHit := Hit(name, Sub(idx, subIdx), subtask);
      SelectAppend(SubtaskHits(name, idx, subtasks[..subIdx - 1]), subHit, c);
      SubtaskHitsStep(name, idx, subtasks, subIdx - 1);
      if Accepts(c, subtask) {
        found := found + [subHit];
      }
      subIdx := subIdx + 1;
    }
    assert subtasks[..subIdx - 1] == subtasks;
  }

  /** One more task of a list adds that task, if accepted, and then its
      accepted subtasks to the selection. */
  lemma SelectListStep(name: string, tasks: seq<Task>, idx: int, c: Criterion)
    requires 1 <= idx <= |tasks|
    ensures var here := Hit(name, Top(idx), tasks[idx - 1]);
            Select(ListHits(name, tasks[..idx]), c) ==
              Select(ListHits(name, tasks[..idx - 1]), c) + (if Accepts(c, here.task) then [here] else []) +
              Select(SubtaskHits(name, idx, tasks[idx - 1].subtasks), c)
  {
    var before := ListHits(name, tasks[..idx - 1]);
    var here := Hit(name, Top(idx), tasks[idx - 1]);
    var subs := SubtaskHits(name, idx, tasks[idx - 1].subtasks);
    ListHitsStep(name, tasks, idx - 1);
    ConcatAssoc(before, [here], subs);
    assert ListHits(name, tasks[..idx]) == before + [here] + subs;
    calc {
      Select(ListHits(name, tasks[..idx]), c);
      == { SelectConcat(before + [here], subs, c); }
      Select(before + [here], c) + Select(subs, c);
      == { SelectAppend(before, here, c); }
      Select(before, c) + (if Accepts(c, here.task) then [here] else []) + Select(subs, c);
    }
  }

  /** The walk of one list inside `search_tasks` and `filter_tasks`: its
      tasks, each followed by its subtasks, the ones `c` accepts kept. */
  method CollectList(name: string, todoList: seq<Task>, c: Criterion) returns (found: seq<Hit>)
    ensures found == Select(ListHits(name, todoList), c)
  {
    found := [];
    var idx := 1;
    while idx <= |todoList|
      invariant 1 <= idx <= |todoList| + 1
      invariant found == Select(ListHits(name, todoList[..idx - 1]), c)
    {
      var todo := todoList[idx - 1];
      var here := Hit(name, Top(idx), todo);
      SelectListStep(name, todoList, idx, c);
      ghost var prev := found;
      if Accepts(c, todo) {
        found := found + [here];
      }
      assert found == prev + (if Accepts(c, todo) then [here] else []);
      var subFound := CollectSubtasks(name, idx, todo.subtasks, c);
      found := found + subFound;
      idx := idx + 1;
    }
    assert todoList[..idx - 1] == todoList;
  }

  /** The walk shared by `search_tasks` and `filter_tasks`, which differ only
      in the test applied to each task and subtask. */
  method Collect(entries: seq<Entry>, c: Criterion) returns (results: seq<Hit>)
    ensures results == Select(Traversal(entries), c)
  {
    results := [];
    var k := 0;
    while k < |entries|
      invariant 0 <= k <= |entries|
      invariant results == Select(Traversal(entries[..k]), c)
    {
      var found := CollectList(entries[k].name, entries[k].tasks, c);
      TraversalStep(entries, k);
      SelectConcat(Traversal(entries[..k]), ListHits(entries[k].name, entries[k].tasks), c);
      results := results + found;
      k := k + 1;
    }
    assert entries[..k] == entries;
  }

  /** `search_tasks` (To-Do.py:153-163). */
  method SearchTasks(entries: seq<Entry>, keyword: string) returns (results: seq<Hit>)
    ensures results == Select(Traversal(entries), Keyword(keyword))
  {
    results := Collect(entries, Keyword(keyword));
  }

  /** `filter_tasks` (To-Do.py:165-175). */
  method FilterTasks(entries: seq<Entry>, status: bool) returns (results: seq<Hit>)
    ensures results == Select(Traversal(entries), Status(status))
  {
    results := Collect(entries, Status(status));
  }

  lemma LowerIdempotent(s: string)
    ensures Lower(Lower(s)) == Lower(s)
  {
  }

  /** Two criteria that accept the same tasks select the same hits. */
  lemma {:induction false} SelectSame(hits: seq<Hit>, c: Criterion, d: Criterion)
    requires forall t :: Accepts(c, t) == Accepts(d, t)
    ensures Select(hits, c) == Select(hits, d)
  {
    if hits != [] {
      SelectSame(hits[..|hits| - 1], c, d);
    }
  }

  /** Search ignores letter case in the keyword: searching "MEET" finds
      what "meet" finds, and "meet" is found in "Team Meeting". */
  lemma SearchIgnoresCase(entries: seq<Entry>, keyword: string)
    ensures Select(Traversal(entries), Keyword(keyword)) == Select(Traversal(entries), Keyword(Lower(keyword)))
    ensures Accepts(Keyword("meet"), Task("Team Meeting", "", false, NoDate, NoPriority, []))
  {
    LowerIdempotent(keyword);
    SelectSame(Traversal(entries), Keyword(keyword), Keyword(Lower(keyword)));
    assert OccursAt(Lower("meet"), Lower("Team Meeting"), 5);
  }

  /** "Reminder: <item> in list '<name>' is due today!" */
  function DueTodayMessage(item: string, name: string): string {
    "Reminder: " + item + " in list '" + name + "' is due today!"
  }

  /** "Reminder: <item> in list '<name>' is due tomorrow!" */
  function DueTomorrowMessage(item: string, name: string): string {
    "Reminder: " + item + " in list '" + name + "' is due tomorrow!"
  }

  /** The reminder for a task of list `name` that the `DueSoon` criterion
      keeps. */
  function NoticeOf(name: string, t: Task, today: int): string {
    if t.due == On(today) then DueTodayMessage(t.item, name)
    else DueTomorrowMessage(t.item, name)
  }

  function Notice(h: Hit, today: int): string {
    NoticeOf(h.listName, h.task, today)
  }

  /** The test `check_reminders` applies to each task and subtask: a pending
      one whose due date is set gets a reminder when that date is today or
      tomorrow. */
  method DueCheck(name: string, t: Task, today: int) returns (msg: seq<string>)
    ensures msg == if Accepts(DueSoon(today), t) then [NoticeOf(name, t, today)] else []
  {
    msg := [];
    if IsSet(t.due) && !t.completed {
      if t.due.day == today {
        msg := [DueTodayMessage(t.item, name)];
      } else if t.due.day == today + 1 {
        msg := [DueTomorrowMessage(t.item, name)];
      }
    }
  }

  /** One reminder per hit, in order. */
  function Notices(hits: seq<Hit>, today: int): (r: seq<string>)
    ensures |r| == |hits|
    ensures forall i :: 0 <= i < |hits| ==> r[i] == Notice(hits[i], today)
  {
    if hits == [] then []
    else Notices(hits[..|hits| - 1], today) + [Notice(hits[|hits| - 1], today)]
  }

  lemma NoticesAppend(hits: seq<Hit>, h: Hit, today: int)
    ensures Notices(hits + [h], today) == Notices(hits, today) + [Notice(h, today)]
  {
    assert (hits + [h])[..|hits|] == hits;
  }

  /** The reminders `check_reminders` produces: one per pending task or
      subtask whose due date is set and is today or tomorrow, in walk order. */
  function Reminders(entries: seq<Entry>, today: int): seq<string> {
    Notices(Select(Traversal(entries), DueSoon(today)), today)
  }

  lemma {:induction false} NoticesConcat(a: seq<Hit>, b: seq<Hit>, today: int)
    ensures Notices(a + b, today) == Notices(a, today) + Notices(b, today)
  {
    if b == [] {
      assert a + b == a;
    } else {
      NoticesConcat(a, b[..|b| - 1], today);
      assert (a + b)[..|a + b| - 1] == a + b[..|b| - 1];
    }
  }

  /** Visiting one more task or subtask adds its reminder, if any. */
  lemma RemindStep(visited: seq<Hit>, h: Hit, today: int)
    ensures Notices(Select(visited + [h], DueSoon(today)), today) ==
            Notices(Select(visited, DueSoon(today)), today) +
            (if Accepts(DueSoon(today), h.task) then [NoticeOf(h.listName, h.task, today)] else [])
  {
    SelectAppend(visited, h, DueSoon(today));
    NoticesAppend(Select(visited, DueSoon(today)), h, today);
    if !Accepts(DueSoon(today), h.task) {
      assert Select(visited + [h], DueSoon(today)) == Select(visited, DueSoon(today));
    }
  }

  /** The walk over the subtasks of the task at position `idx` inside
      `check_reminders`. */
  method RemindSubtasks(name: string, idx: int, subtasks: seq<Task>, today: int) returns (found: seq<string>)
    ensures found == Notices(Select(SubtaskHits(name, idx, subtasks), DueSoon(today)), today)
  {
    found := [];
    var j := 0;
    while j < |subtasks|
      invariant 0 <= j <= |subtasks|
      invariant found == Notices(Select(SubtaskHits(name, idx, subtasks[..j]), DueSoon(today)), today)
    {
      var subtask := subtasks[j];
      ghost var subHit := Hit(name, Sub(idx, j + 1), subtask);
      var subMsg := DueCheck(name, subtask, today);
      RemindStep(SubtaskHits(name, idx, subtasks[..j]), subHit, today);
      SubtaskHitsStep(name, idx, subtasks, j);
      found := found + subMsg;
      j := j + 1;
    }
    assert subtasks[..j] == subtasks;
  }

  /** The walk of one list inside `check_reminders`. */
  method RemindList(name: string, todoList: seq<Task>, today: int) returns (found: seq<string>)
    ensures found == Notices(Select(ListHits(name, todoList), DueSoon(today)), today)
  {
    found := [];
    var idx := 0;
    while idx < |todoList|
      invariant 0 <= idx <= |todoList|
      invariant found == Notices(Select(ListHits(name, todoList[..idx]), DueSoon(today)), today)
    {
      var todo := todoList[idx];
      ghost var before := ListHits(name, todoList[..idx]);
      ghost var here := Hit(name, Top(idx + 1), todo);
      var msg := DueCheck(name, todo, today);
      RemindStep(before, here, today);
      found := found + msg;
      var subFound := RemindSubtasks(name, idx + 1, todo.subtasks, today);
      SelectConcat(before + [here], SubtaskHits(name, idx + 1, todo.subtasks), DueSoon(today));
      NoticesConcat(Select(before + [here], DueSoon(today)), Select(SubtaskHits(name, idx + 1, todo.subtasks), DueSoon(today)), today);
      found := found + subFound;
      ListHitsStep(name, todoList, idx);
      ConcatAssoc(before, [here], SubtaskHits(name, idx + 1, todo.subtasks));
      idx := idx + 1;
    }
    assert todoList[..idx] == todoList;
  }

  /** `check_reminders` (To-Do.py:132-151); `today` is the date the source
      reads from the clock. */
  method CheckReminders(entries: seq<Entry>, today: int) returns (reminders: seq<string>)
    ensures reminders == Reminders(entries, today)
  {
    reminders := [];
    var k := 0;
    while k < |entries|
      invariant 0 <= k <= |entries|
      invariant reminders == Reminders(entries[..k], today)
    {
      var found := RemindList(entries[k].name, entries[k].tasks, today);
      TraversalStep(entries, k);
      SelectConcat(Traversal(entries[..k]), ListHits(entries[k].name, entries[k].tasks), DueSoon(today));
      NoticesConcat(Select(Traversal(entries[..k]), DueSoon(today)),
                    Select(ListHits(entries[k].name, entries[k].tasks), DueSoon(today)), today);
      reminders := reminders + found;
      k := k + 1;
    }
    assert entries[..k] == entries;
  }

  /** One reminder per task or subtask due soon, each position once, in
      walk order. */
  lemma RemindersOncePerTask(entries: seq<Entry>, today: int)
    requires DistinctNames(entries)
    ensures var due := Select(Traversal(entries), DueSoon(today));
            && OncePerPlace(due)
            && |Reminders(entries, today)| == |due|
            && forall i :: 0 <= i < |due| ==> Reminders(entries, today)[i] == Notice(due[i], today)
  {
    ResultsOncePerPlace(entries, DueSoon(today));
  }

  lemma {:induction false} NoticesMembers(hits: seq<Hit>, today: int, m: string)
    ensures m in Notices(hits, today) <==> exists h :: h in hits && m == Notice(h, today)
  {
    if hits != [] {
      var init := hits[..|hits| - 1];
      NoticesMembers(init, today, m);
      assert hits == init + [hits[|hits| - 1]];
    }
  }

  /** Every pending task or subtask due today gets its "due today" reminder,
      whether or not its parent is completed or has a due date. */
  lemma DueTodayReminded(entries: seq<Entry>, today: int, h: Hit)
    requires Locates(entries, h)
    requires h.task.due == On(today) && !h.task.completed
    ensures DueTodayMessage(h.task.item, h.listName) in Reminders(entries, today)
  {
    QueryResults(entries, DueSoon(today), h);
    NoticesMembers(Select(Traversal(entries), DueSoon(today)), today, Notice(h, today));
  }

  /** Every pending task or subtask due tomorrow gets its "due tomorrow"
      reminder. */
  lemma DueTomorrowReminded(entries: seq<Entry>, today: int, h: Hit)
    requires Locates(entries, h)
    requires h.task.due == On(today + 1) && !h.task.completed
    ensures DueTomorrowMessage(h.task.item, h.listName) in Reminders(entries, today)
  {
    QueryResults(entries, DueSoon(today), h);
    NoticesMembers(Select(Traversal(entries), DueSoon(today)), today, Notice(h, today));
  }

  /** Every reminder is the reminder of a pending task or subtask of the
      store whose due date is set and is today or tomorrow. */
  lemma RemindersSound(entries: seq<Entry>, today: int, m: string)
    requires m in Reminders(entries, today)
    ensures exists h :: Locates(entries, h) && Accepts(DueSoon(today), h.task) && m == Notice(h, today)
  {
    var hits := Select(Traversal(entries), DueSoon(today));
    NoticesMembers(hits, today, m);
    var h :| h in hits && m == Notice(h, today);
    QueryResults(entries, DueSoon(today), h);
  }
}

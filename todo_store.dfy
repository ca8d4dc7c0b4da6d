/** The mutable objects of the application: a to-do list, which the menu
    edits in place, and the store, the dict from list name to list object.
    The store holds the very list objects the menu edits, so an edit made
    through a list is visible in the store without saving it back. */
module TodoStore {
  import opened TodoModel
  import opened TaskOps
  import opened Sorting
  import opened StoreOps

  /** One to-do list: the Python list of task records. */
  class TodoList {
    var tasks: seq<Task>

    constructor (tasks: seq<Task>)
      ensures this.tasks == tasks
    {
      this.tasks := tasks;
    }

    /** `add_todo` (To-Do.py:46-54); `timestamp` is the clock reading the
        source takes with `datetime.now()`. */
    method AddTodo(item: string, timestamp: string, due: Due, priority: Priority, parent: Option<int>)
      requires ParentInRange(tasks, parent)
      modifies this
      ensures tasks == Appended(old(tasks), NewTask(item, timestamp, due, priority), parent)
    {
      var newTodo := NewTask(item, timestamp, due, priority);
      if parent.Some? {
        var p := parent.value;
        var parentTask := tasks[p - 1];
        tasks := tasks[p - 1 := parentTask.(subtasks := parentTask.subtasks + [newTodo])];
      } else {
        tasks := tasks + [newTodo];
      }
    }

    /** `remove_todo` (To-Do.py:56-70). The task the source reports as
        removed is returned; None stands for "Invalid index". */
    method RemoveTodo(index: int, parent: Option<int>) returns (removed: Option<Task>)
      requires ParentInRange(tasks, parent)
      modifies this
      ensures removed == TaskAt(old(tasks), AddressOf(index, parent))
      ensures tasks == Removed(old(tasks), index, parent)
    {
      removed := None;
      if parent.Some? {
        var p := parent.value;
        var parentTask := tasks[p - 1];
        var subs := parentTask.subtasks;
        if 1 <= index <= |subs| {
          removed := Some(subs[index - 1]);
          tasks := tasks[p - 1 := parentTask.(subtasks := subs[..index - 1] + subs[index..])];
        }
      } else {
        if 1 <= index <= |tasks| {
          removed := Some(tasks[index - 1]);
          tasks := tasks[..index - 1] + tasks[index..];
        }
      }
    }

    /** `mark_completed` (To-Do.py:72-90). The task the source reports as
        completed is returned; None stands for "Invalid index". */
    method MarkCompleted(index: int, parent: Option<int>) returns (marked: Option<Task>)
      requires ParentInRange(tasks, parent)
      modifies this
      ensures marked == TaskAt(tasks, AddressOf(index, parent))
      ensures marked.Some? <==> TaskAt(old(tasks), AddressOf(index, parent)).Some?
      ensures marked.Some? ==> marked.value == Done(TaskAt(old(tasks), AddressOf(index, parent)).value)
      ensures tasks == Completed(old(tasks), index, parent)
    {
      marked := None;
      if parent.Some? {
        var p := parent.value;
        var parentTask := tasks[p - 1];
        var subs := parentTask.subtasks;
        if 1 <= index <= |subs| {
          var target := subs[index - 1];
          target := target.(completed := true);
          target := target.(due := NoDate);
          target := target.(priority := NoPriority);
          tasks := tasks[p - 1 := parentTask.(subtasks := subs[index - 1 := target])];
          marked := Some(target);
        }
      } else {
        if 1 <= index <= |tasks| {
          var target := tasks[index - 1];
          target := target.(completed := true);
          target := target.(due := NoDate);
          target := target.(priority := NoPriority);
          tasks := tasks[index - 1 := target];
          marked := Some(target);
        }
      }
    }

    /** The sorting `display_todo_list` does to the list it shows
        (To-Do.py:96-97, 111): the top level first, then, task by task, its
        subtasks. */
    method SortForDisplay()
      modifies this
      ensures tasks == DisplayOrder(old(tasks))
    {
      tasks := StableSort(tasks);
      ghost var sorted := tasks;
      var i := 0;
      while i < |tasks|
        invariant 0 <= i <= |tasks| == |sorted|
        invariant forall j :: 0 <= j < i ==> tasks[j] == sorted[j].(subtasks := StableSort(sorted[j].subtasks))
        invariant forall j :: i <= j < |tasks| ==> tasks[j] == sorted[j]
      {
        var todo := tasks[i];
        tasks := tasks[i := todo.(subtasks := StableSort(todo.subtasks))];
        i := i + 1;
      }
      forall j | 0 <= j < |tasks| ensures tasks[j] == SortSubtasks(sorted)[j] {
        SortSubtasksAt(sorted, j);
      }
    }
  }

  /** The store: list names in insertion order and, position by position,
      the list objects they map to. */
  class Store {
    var names: seq<string>
    var lists: seq<TodoList>

    ghost predicate Valid()
      reads this
    {
      && |names| == |lists|
      && (forall i, j :: 0 <= i < j < |names| ==> names[i] != names[j])
      && (forall i, j :: 0 <= i < j < |lists| ==> lists[i] != lists[j])
    }

    /** The task lists of the stored list objects, in store order. */
    function Contents(): (contents: seq<seq<Task>>)
      reads this, lists
      ensures |contents| == |lists|
      ensures forall i :: 0 <= i < |lists| ==> contents[i] == lists[i].tasks
    {
      seq(|lists|, i requires 0 <= i < |lists| reads this, lists => lists[i].tasks)
    }

    /** The store's contents as name/task-list pairs. */
    function Snapshot(): (entries: seq<Entry>)
      reads this, lists
      requires |names| == |lists|
      ensures Names(entries) == names
      ensures Valid() ==> DistinctNames(entries)
    {
      Entries(names, Contents())
    }

    /** An empty store, what the application starts from without a file. */
    constructor ()
      ensures Valid() && names == [] && lists == []
    {
      names := [];
      lists := [];
    }

    /** `load_todo_list` (To-Do.py:38-40): the stored list object itself on
        a hit, a new empty list, not entered in the store, on a miss. */
    method LoadTodoList(name: string) returns (l: TodoList)
      requires Valid()
      ensures forall i :: 0 <= i < |names| && names[i] == name ==> l == lists[i]
      ensures name !in names ==> fresh(l)
      ensures l.tasks == Lookup(Snapshot(), name)
    {
      ghost var entries := Snapshot();
      if name in names {
        var i :| 0 <= i < |names| && names[i] == name;
        l := lists[i];
        assert entries[i].name == name;
        FirstAtDistinct(entries, name, i);
        LookupAt(entries, name, i);
        assert forall j :: 0 <= j < |names| && names[j] == name ==> j == i;
      } else {
        l := new TodoList([]);
        Absent(entries, name, []);
      }
    }

    /** `save_todo_list` (To-Do.py:42-44): the name maps to `l` from now on,
        keeping its place if it was already a key. The menu saves a list
        under the name it was loaded by, so no list object is ever stored
        under two names. */
    method SaveTodoList(name: string, l: TodoList)
      requires Valid()
      requires forall i :: 0 <= i < |lists| && lists[i] == l ==> names[i] == name
      modifies this
      ensures Valid()
      ensures name in old(names) ==>
                names == old(names) &&
                forall i :: 0 <= i < |names| && names[i] == name ==> lists == old(lists)[i := l]
      ensures name !in old(names) ==> names == old(names) + [name] && lists == old(lists) + [l]
      ensures Snapshot() == Assign(old(Snapshot()), name, l.tasks)
    {
      ghost var oldNames, contents := names, Contents();
      if name in names {
        var i :| 0 <= i < |names| && names[i] == name;
        ReplaceName(oldNames, contents, name, l.tasks, i);
        ReplaceKeepsDistinct(lists, i, l);
        lists := lists[i := l];
        assert Contents() == contents[i := l.tasks];
      } else {
        assert l !in lists;
        NoDuplicateAdded(lists, l);
        names := names + [name];
        lists := lists + [l];
        assert Contents() == contents + [l.tasks];
        AddName(oldNames, contents, name, l.tasks);
      }
    }

    /** `remove_list` (To-Do.py:124-130): whether the name was found ("not
        found" otherwise); only that entry goes. */
    method RemoveList(name: string) returns (found: bool)
      requires Valid()
      modifies this
      ensures Valid()
      ensures found == (name in old(names))
      ensures !found ==> names == old(names) && lists == old(lists)
      ensures found ==>
                forall i :: 0 <= i < |old(names)| && old(names)[i] == name ==>
                  names == old(names)[..i] + old(names)[i + 1..] &&
                  lists == old(lists)[..i] + old(lists)[i + 1..]
      ensures Snapshot() == Delete(old(Snapshot()), name)
    {
      ghost var oldNames, contents := names, Contents();
      found := name in names;
      if found {
        var i :| 0 <= i < |names| && names[i] == name;
        names := names[..i] + names[i + 1..];
        lists := lists[..i] + lists[i + 1..];
        DropKeepsDistinct(old(lists), i);
        assert Contents() == contents[..i] + contents[i + 1..];
        DropName(oldNames, contents, name, i);
      } else {
        Absent(Snapshot(), name, []);
      }
    }
  }

  /** Name/task-list pairs from the names and the lists, position by
      position. */
  function Entries(names: seq<string>, contents: seq<seq<Task>>): (entries: seq<Entry>)
    requires |names| == |contents|
    ensures |entries| == |names|
    ensures forall i :: 0 <= i < |names| ==> entries[i] == Entry(names[i], contents[i])
    ensures Names(entries) == names
    ensures (forall i, j :: 0 <= i < j < |names| ==> names[i] != names[j]) ==> DistinctNames(entries)
  {
    var entries := seq(|names|, i requires 0 <= i < |names| => Entry(names[i], contents[i]));
    assert Names(entries) == names;
    entries
  }

  /** Replacing the list at position `i`, where `name` is, among distinct
      names is assigning to `name` in the entries. */
  lemma ReplaceName(names: seq<string>, contents: seq<seq<Task>>, name: string, tasks: seq<Task>, i: int)
    requires |names| == |contents| && 0 <= i < |names| && names[i] == name
    requires forall a, b :: 0 <= a < b < |names| ==> names[a] != names[b]
    ensures forall j :: 0 <= j < |names| && names[j] == name ==> j == i
    ensures Entries(names, contents[i := tasks]) == Assign(Entries(names, contents), name, tasks)
  {
    var before := Entries(names, contents);
    assert before[i].name == name;
    FirstAtDistinct(before, name, i);
    AssignAt(before, name, tasks, i);
    assert Entries(names, contents[i := tasks]) == before[i := Entry(name, tasks)];
  }

  /** A name not yet present, with its list, goes at the end. */
  lemma AddName(names: seq<string>, contents: seq<seq<Task>>, name: string, tasks: seq<Task>)
    requires |names| == |contents| && name !in names
    requires forall a, b :: 0 <= a < b < |names| ==> names[a] != names[b]
    ensures var r := names + [name];
            forall a, b :: 0 <= a < b < |r| ==> r[a] != r[b]
    ensures Entries(names + [name], contents + [tasks]) == Assign(Entries(names, contents), name, tasks)
  {
    var before := Entries(names, contents);
    Absent(before, name, tasks);
    assert Entries(names + [name], contents + [tasks]) == before + [Entry(name, tasks)];
  }

  /** Dropping position `i`, where `name` is, from distinct names and the
      lists beside them is deleting `name` from the entries. */
  lemma DropName(names: seq<string>, contents: seq<seq<Task>>, name: string, i: int)
    requires |names| == |contents| && 0 <= i < |names| && names[i] == name
    requires forall a, b :: 0 <= a < b < |names| ==> names[a] != names[b]
    ensures var r := names[..i] + names[i + 1..];
            forall a, b :: 0 <= a < b < |r| ==> r[a] != r[b]
    ensures forall j :: 0 <= j < |names| && names[j] == name ==> j == i
    ensures Entries(names[..i] + names[i + 1..], contents[..i] + contents[i + 1..]) ==
            Delete(Entries(names, contents), name)
  {
    DropKeepsDistinct(names, i);
    var before := Entries(names, contents);
    assert before[i].name == name;
    FirstAtDistinct(before, name, i);
    DeleteAt(before, name, i);
    assert Entries(names[..i] + names[i + 1..], contents[..i] + contents[i + 1..]) == before[..i] + before[i + 1..];
  }

  /** Dropping one name from distinct names leaves them distinct. */
  lemma DropKeepsDistinct<T>(names: seq<T>, i: int)
    requires 0 <= i < |names|
    requires forall a, b :: 0 <= a < b < |names| ==> names[a] != names[b]
    ensures var r := names[..i] + names[i + 1..];
            forall a, b :: 0 <= a < b < |r| ==> r[a] != r[b]
  {
    var r := names[..i] + names[i + 1..];
    forall a, b | 0 <= a < b < |r| ensures r[a] != r[b] {
      var a', b' := if a < i then a else a + 1, if b < i then b else b + 1;
      assert r[a] == names[a'] && r[b] == names[b'];
    }
  }

  /** Appending an object not yet held keeps the objects distinct. */
  lemma NoDuplicateAdded<T>(xs: seq<T>, x: T)
    requires x !in xs
    requires forall a, b :: 0 <= a < b < |xs| ==> xs[a] != xs[b]
    ensures var r := xs + [x];
            forall a, b :: 0 <= a < b < |r| ==> r[a] != r[b]
  {
  }

  /** Replacing the list at position `i`, where `name` is, changes the
      lookup of `name` alone. */
  lemma ReplaceLookups(names: seq<string>, contents: seq<seq<Task>>, name: string, tasks: seq<Task>, i: int)
    requires |names| == |contents| && 0 <= i < |names| && names[i] == name
    requires forall a, b :: 0 <= a < b < |names| ==> names[a] != names[b]
    ensures Lookup(Entries(names, contents), name) == contents[i]
    ensures Lookup(Entries(names, contents[i := tasks]), name) == tasks
    ensures forall m :: m != name ==>
              Lookup(Entries(names, contents[i := tasks]), m) == Lookup(Entries(names, contents), m)
  {
    var before := Entries(names, contents);
    assert before[i].name == name;
    FirstAtDistinct(before, name, i);
    LookupAt(before, name, i);
    ReplaceName(names, contents, name, tasks, i);
    forall m | m != name
      ensures Lookup(Assign(before, name, tasks), m) == Lookup(before, m)
    {
      AssignLookup(before, name, tasks, m);
    }
    AssignLookup(before, name, tasks, name);
  }

  /** Putting an object where it is the only occurrence keeps the objects
      distinct. */
  lemma ReplaceKeepsDistinct<T>(xs: seq<T>, i: int, x: T)
    requires 0 <= i < |xs|
    requires forall j :: 0 <= j < |xs| && xs[j] == x ==> j == i
    requires forall a, b :: 0 <= a < b < |xs| ==> xs[a] != xs[b]
    ensures var r := xs[i := x];
            forall a, b :: 0 <= a < b < |r| ==> r[a] != r[b]
  {
  }

  /** Adding a task through the list the menu loaded (To-Do.py:236-255,
      282-286) changes the store at once, before any save: that name looks
      up the list with the task appended, and every other name looks up
      what it did before. */
  method EditLoadedList(store: Store, name: string, item: string, timestamp: string,
                        due: Due, priority: Priority, parent: Option<int>)
    requires store.Valid() && name in store.names
    requires ParentInRange(Lookup(store.Snapshot(), name), parent)
    modifies store.lists
    ensures store.Valid() && store.names == old(store.names) && store.lists == old(store.lists)
    ensures Lookup(store.Snapshot(), name) ==
              Appended(old(Lookup(store.Snapshot(), name)), NewTask(item, timestamp, due, priority), parent)
    ensures forall m :: m != name ==> Lookup(store.Snapshot(), m) == old(Lookup(store.Snapshot(), m))
  {
    ghost var names, contents := store.names, store.Contents();
    ghost var i :| 0 <= i < |names| && names[i] == name;
    var l := store.LoadTodoList(name);
    ReplaceLookups(names, contents, name, contents[i], i);
    assert l == store.lists[i];
    l.AddTodo(item, timestamp, due, priority, parent);
    forall j | 0 <= j < |store.lists|
      ensures store.lists[j].tasks == contents[i := l.tasks][j]
    {
      if j != i {
        assert store.lists[j] != l;
      }
    }
    assert store.Contents() == contents[i := l.tasks];
    ReplaceLookups(names, contents, name, l.tasks, i);
  }
}

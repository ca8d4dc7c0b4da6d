/** The store as a value: the name/list pairs of the dict in insertion
    order, and what `dict.get`, item assignment and `del` do to it
    (To-Do.py:38-44, 124-130). */
module StoreOps {
  import opened TodoModel
  import opened SeqFacts

  /** The keys of the store, in insertion order. */
  function Names(entries: seq<Entry>): (r: seq<string>)
    ensures |r| == |entries|
    ensures forall i :: 0 <= i < |entries| ==> r[i] == entries[i].name
  {
    seq(|entries|, i requires 0 <= i < |entries| => entries[i].name)
  }

  /** `lists.get(list_name, [])`: the tasks stored under `name`, or the
      empty list on a miss. */
  function Lookup(entries: seq<Entry>, name: string): seq<Task> {
    if entries == [] then []
    else if entries[0].name == name then entries[0].tasks
    else Lookup(entries[1..], name)
  }

  /** `lists[list_name] = todo_list`: an existing key keeps its place and
      gets the new list; a new key goes at the end. */
  function Assign(entries: seq<Entry>, name: string, tasks: seq<Task>): seq<Entry> {
    if entries == [] then [Entry(name, tasks)]
    else if entries[0].name == name then [Entry(name, tasks)] + entries[1..]
    else [entries[0]] + Assign(entries[1..], name, tasks)
  }

  /** `del lists[list_name]` when the key is present; nothing otherwise. */
  function Delete(entries: seq<Entry>, name: string): seq<Entry> {
    if entries == [] then []
    else if entries[0].name == name then entries[1..]
    else [entries[0]] + Delete(entries[1..], name)
  }

  /** A name that is not a key: the lookup misses, saving appends it and
      removing changes nothing. */
  lemma {:induction false} Absent(entries: seq<Entry>, name: string, tasks: seq<Task>)
    requires name !in Names(entries)
    ensures Lookup(entries, name) == []
    ensures Assign(entries, name, tasks) == entries + [Entry(name, tasks)]
    ensures Delete(entries, name) == entries
  {
    if entries != [] {
      NamesTail(entries);
      Absent(entries[1..], name, tasks);
      assert [entries[0]] + (entries[1..] + [Entry(name, tasks)]) == entries + [Entry(name, tasks)];
    }
  }

  lemma NamesCons(e: Entry, rest: seq<Entry>)
    ensures Names([e] + rest) == [e.name] + Names(rest)
  {
  }

  lemma NamesTail(entries: seq<Entry>)
    requires entries != []
    ensures Names(entries) == [entries[0].name] + Names(entries[1..])
  {
  }

  lemma DistinctCons(e: Entry, rest: seq<Entry>)
    requires DistinctNames(rest) && e.name !in Names(rest)
    ensures DistinctNames([e] + rest)
  {
    var r := [e] + rest;
    forall i, j | 0 <= i < j < |r| ensures r[i].name != r[j].name {
      if i == 0 {
        assert r[j] == rest[j - 1];
      } else {
        assert r[i] == rest[i - 1] && r[j] == rest[j - 1];
      }
    }
  }

  /** The first entry named `name` is at `i`, as with distinct names the
      only one is. */
  predicate FirstAt(entries: seq<Entry>, name: string, i: int) {
    && 0 <= i < |entries| && entries[i].name == name
    && forall j :: 0 <= j < i ==> entries[j].name != name
  }

  lemma FirstAtDistinct(entries: seq<Entry>, name: string, i: int)
    requires DistinctNames(entries) && 0 <= i < |entries| && entries[i].name == name
    ensures FirstAt(entries, name, i)
  {
  }

  lemma FirstAtTail(entries: seq<Entry>, name: string, i: int)
    requires FirstAt(entries, name, i) && i > 0
    ensures entries[0].name != name && FirstAt(entries[1..], name, i - 1)
  {
    assert forall j :: 0 <= j < i - 1 ==> entries[1..][j] == entries[j + 1];
  }

  /** The lookup of a name is the list of its first entry. */
  lemma {:induction false} LookupAt(entries: seq<Entry>, name: string, i: int)
    requires FirstAt(entries, name, i)
    ensures Lookup(entries, name) == entries[i].tasks
  {
    if i > 0 {
      FirstAtTail(entries, name, i);
      LookupAt(entries[1..], name, i - 1);
    }
  }

  /** Saving under a present name replaces its first entry in place. */
  lemma {:induction false} AssignAt(entries: seq<Entry>, name: string, tasks: seq<Task>, i: int)
    requires FirstAt(entries, name, i)
    ensures Assign(entries, name, tasks) == entries[i := Entry(name, tasks)]
  {
    if i > 0 {
      FirstAtTail(entries, name, i);
      AssignAt(entries[1..], name, tasks, i - 1);
      assert [entries[0]] + entries[1..][i - 1 := Entry(name, tasks)] == entries[i := Entry(name, tasks)];
    }
  }

  /** Removing a present name takes out its first entry, the others keeping
      their order. */
  lemma {:induction false} DeleteAt(entries: seq<Entry>, name: string, i: int)
    requires FirstAt(entries, name, i)
    ensures Delete(entries, name) == entries[..i] + entries[i + 1..]
  {
    if i > 0 {
      var rest := entries[1..];
      FirstAtTail(entries, name, i);
      assert Delete(entries, name) == [entries[0]] + Delete(rest, name);
      DeleteAt(rest, name, i - 1);
      assert rest[..i - 1] == entries[1..i] && rest[i..] == entries[i + 1..];
      assert entries[..i] == [entries[0]] + entries[1..i];
      ConcatAssoc([entries[0]], entries[1..i], entries[i + 1..]);
    }
  }

  /** Saving a list adds no key but its own and keeps keys distinct. */
  lemma {:induction false} AssignNames(entries: seq<Entry>, name: string, tasks: seq<Task>)
    requires DistinctNames(entries)
    ensures DistinctNames(Assign(entries, name, tasks))
    ensures forall m :: m in Names(Assign(entries, name, tasks)) <==> m == name || m in Names(entries)
  {
    if entries == [] {
      assert Names(Assign(entries, name, tasks)) == [name];
    } else {
      NamesTail(entries);
      if entries[0].name == name {
        NamesCons(Entry(name, tasks), entries[1..]);
        DistinctCons(Entry(name, tasks), entries[1..]);
      } else {
        var rest := Assign(entries[1..], name, tasks);
        AssignNames(entries[1..], name, tasks);
        NamesCons(entries[0], rest);
        DistinctCons(entries[0], rest);
      }
    }
  }

  /** After saving, `Lookup` returns the saved list for its name and the old
      list for every other name. */
  lemma {:induction false} AssignLookup(entries: seq<Entry>, name: string, tasks: seq<Task>, other: string)
    ensures Lookup(Assign(entries, name, tasks), name) == tasks
    ensures other != name ==> Lookup(Assign(entries, name, tasks), other) == Lookup(entries, other)
  {
    if entries != [] && entries[0].name != name {
      AssignLookup(entries[1..], name, tasks, other);
    }
  }

  /** Removing a list takes out that key alone and keeps keys distinct. */
  lemma {:induction false} DeleteNames(entries: seq<Entry>, name: string)
    requires DistinctNames(entries)
    ensures DistinctNames(Delete(entries, name))
    ensures forall m :: m in Names(Delete(entries, name)) <==> m != name && m in Names(entries)
  {
    if entries != [] {
      NamesTail(entries);
      if entries[0].name != name {
        var rest := Delete(entries[1..], name);
        DeleteNames(entries[1..], name);
        NamesCons(entries[0], rest);
        DistinctCons(entries[0], rest);
      }
    }
  }

  /** After removing, `Lookup` finds nothing under the name and the old
      list under every other name. */
  lemma {:induction false} DeleteLookup(entries: seq<Entry>, name: string, other: string)
    requires DistinctNames(entries)
    ensures Lookup(Delete(entries, name), name) == []
    ensures other != name ==> Lookup(Delete(entries, name), other) == Lookup(entries, other)
  {
    DeleteNames(entries, name);
    if entries != [] && entries[0].name != name {
      DeleteLookup(entries[1..], name, other);
    } else if entries != [] {
      NamesTail(entries);
      assert forall j :: 1 <= j < |entries| ==> entries[j].name != entries[0].name;
      Absent(entries[1..], name, []);
    }
  }
}

/** The records of the store as they are read from and written to the
    JSON file, and the pass of `load_lists` that fills in the keys older
    files lack (To-Do.py:23-28). A record as read is a `RawTask`, whose
    optional keys are `Option` fields; the file itself is not modelled. */
module Persistence {
  import opened TodoModel

  /** A task record as `json.load` returns it. The keys "item" and
      "timestamp" are always present; the other four may be missing. */
  datatype RawTask = RawTask(
    item: string,
    timestamp: string,
    completed: Option<bool>,
    due: Option<Due>,
    priority: Option<Priority>,
    subtasks: SubtaskKey)

  /** The "subtasks" key of a record: missing, or a list of records. */
  datatype SubtaskKey = Missing | Present(records: seq<RawTask>)

  /** One list of the file: its name and its records. */
  datatype RawEntry = RawEntry(name: string, tasks: seq<RawTask>)

  /** Every key the application reads is present. */
  predicate HasAllKeys(r: RawTask) {
    r.completed.Some? && r.due.Some? && r.priority.Some? && r.subtasks.Present?
  }

  /** `dict.setdefault`: a present key keeps its value, a missing one gets
      the default. */
  function SetDefault<T>(field: Option<T>, default: T): Option<T> {
    if field.Some? then field else Some(default)
  }

  /** The four `setdefault` calls on one top-level record (To-Do.py:24-28):
      due date None, priority None, completed False, subtasks []. */
  function WithDefaults(r: RawTask): (d: RawTask)
    ensures HasAllKeys(d)
    ensures d.item == r.item && d.timestamp == r.timestamp
    ensures HasAllKeys(r) ==> d == r
    ensures r.completed.Some? ==> d.completed == r.completed
    ensures r.completed.None? ==> d.completed == Some(false)
    ensures r.due.Some? ==> d.due == r.due
    ensures r.due.None? ==> d.due == Some(NoDate)
    ensures r.priority.Some? ==> d.priority == r.priority
    ensures r.priority.None? ==> d.priority == Some(NoPriority)
    ensures r.subtasks.Present? ==> d.subtasks == r.subtasks
    ensures r.subtasks.Missing? ==> d.subtasks == Present([])
  {
    RawTask(r.item, r.timestamp,
            SetDefault(r.completed, false),
            SetDefault(r.due, NoDate),
            SetDefault(r.priority, NoPriority),
            if r.subtasks.Present? then r.subtasks else Present([]))
  }

  /** The store after the defaulting pass: every top-level record of every
      list defaulted; names, order and subtask records untouched. */
  function DefaultedEntry(e: RawEntry): (d: RawEntry)
    ensures d.name == e.name && |d.tasks| == |e.tasks|
    ensures forall j :: 0 <= j < |e.tasks| ==> d.tasks[j] == WithDefaults(e.tasks[j])
  {
    RawEntry(e.name, seq(|e.tasks|, j requires 0 <= j < |e.tasks| => WithDefaults(e.tasks[j])))
  }

  function Defaulted(raw: seq<RawEntry>): (d: seq<RawEntry>)
    ensures |d| == |raw|
    ensures forall k :: 0 <= k < |raw| ==> d[k] == DefaultedEntry(raw[k])
  {
    seq(|raw|, k requires 0 <= k < |raw| => DefaultedEntry(raw[k]))
  }

  /** The loop of `load_lists` that fills in missing keys (To-Do.py:23-28),
      list by list and record by record. */
  method FillDefaults(raw: seq<RawEntry>) returns (filled: seq<RawEntry>)
    ensures filled == Defaulted(raw)
  {
    filled := raw;
    var k := 0;
    while k < |filled|
      invariant 0 <= k <= |filled| == |raw|
      invariant forall i :: 0 <= i < k ==> filled[i] == DefaultedEntry(raw[i])
      invariant forall i :: k <= i < |filled| ==> filled[i] == raw[i]
    {
      var todoList := filled[k].tasks;
      var j := 0;
      while j < |todoList|
        invariant 0 <= j <= |todoList| == |raw[k].tasks|
        invariant forall i :: 0 <= i < j ==> todoList[i] == WithDefaults(raw[k].tasks[i])
        invariant forall i :: j <= i < |todoList| ==> todoList[i] == raw[k].tasks[i]
      {
        var todo := todoList[j];
        if todo.due.None? {
          todo := todo.(due := Some(NoDate));
        }
        if todo.priority.None? {
          todo := todo.(priority := Some(NoPriority));
        }
        if todo.completed.None? {
          todo := todo.(completed := Some(false));
        }
        if todo.subtasks.Missing? {
          todo := todo.(subtasks := Present([]));
        }
        todoList := todoList[j := todo];
        j := j + 1;
      }
      assert todoList == DefaultedEntry(raw[k]).tasks;
      filled := filled[k := RawEntry(filled[k].name, todoList)];
      k := k + 1;
    }
  }

  /** The record `json.dump` writes for a task. */
  function Encode(t: Task): (r: RawTask)
    ensures HasAllKeys(r)
    decreases t
  {
    RawTask(t.item, t.timestamp, Some(t.completed), Some(t.due), Some(t.priority),
            Present(seq(|t.subtasks|, i requires 0 <= i < |t.subtasks| => Encode(t.subtasks[i]))))
  }

  /** The task a record stands for, when it and all its subtask records
      carry every key the application reads; `None` where some key the
      application may read is missing. */
  function Decode(r: RawTask): (t: Option<Task>)
    ensures t.Some? ==> HasAllKeys(r) && t.value.item == r.item && t.value.completed == r.completed.value
    decreases r
  {
    match r.subtasks
    case Missing => None
    case Present(subs) =>
      if r.completed.None? || r.due.None? || r.priority.None? then None
      else
        var decoded := seq(|subs|, i requires 0 <= i < |subs| => Decode(subs[i]));
        if exists i :: 0 <= i < |decoded| && decoded[i].None? then None
        else
          Some(Task(r.item, r.timestamp, r.completed.value, r.due.value, r.priority.value, Values(decoded)))
  }

  /** The values of a sequence of present options. */
  function Values<T>(os: seq<Option<T>>): (r: seq<T>)
    requires forall i :: 0 <= i < |os| ==> os[i].Some?
    ensures |r| == |os|
    ensures forall i :: 0 <= i < |os| ==> os[i] == Some(r[i])
  {
    if os == [] then [] else [os[0].value] + Values(os[1..])
  }

  /** Decoding a saved record gives back the task. */
  lemma {:induction false} DecodeEncode(t: Task)
    ensures Decode(Encode(t)) == Some(t)
    decreases t
  {
    var subs := Encode(t).subtasks.records;
    forall i | 0 <= i < |t.subtasks|
      ensures Decode(subs[i]) == Some(t.subtasks[i])
    {
      DecodeEncode(t.subtasks[i]);
    }
    var decoded := seq(|subs|, i requires 0 <= i < |subs| => Decode(subs[i]));
    assert forall i :: 0 <= i < |decoded| ==> decoded[i] == Some(t.subtasks[i]);
    assert Values(decoded) == t.subtasks;
    assert Decode(Encode(t)) == Some(Task(t.item, t.timestamp, t.completed, t.due, t.priority, Values(decoded)));
  }

  function EncodeStore(entries: seq<Entry>): (raw: seq<RawEntry>)
    ensures |raw| == |entries|
    ensures forall k :: 0 <= k < |entries| ==> raw[k].name == entries[k].name && |raw[k].tasks| == |entries[k].tasks|
  {
    seq(|entries|, k requires 0 <= k < |entries| =>
      RawEntry(entries[k].name,
               seq(|entries[k].tasks|, j requires 0 <= j < |entries[k].tasks| => Encode(entries[k].tasks[j]))))
  }

  /** A list whose records all decode, or `None`. */
  function DecodeEntry(e: RawEntry): (d: Option<Entry>)
    ensures d.Some? ==> d.value.name == e.name && |d.value.tasks| == |e.tasks|
    ensures d.Some? <==> forall j :: 0 <= j < |e.tasks| ==> Decode(e.tasks[j]).Some?
  {
    var decoded := seq(|e.tasks|, j requires 0 <= j < |e.tasks| => Decode(e.tasks[j]));
    assert forall j :: 0 <= j < |e.tasks| ==> decoded[j] == Decode(e.tasks[j]);
    if exists j :: 0 <= j < |decoded| && decoded[j].None? then None
    else Some(Entry(e.name, Values(decoded)))
  }

  /** The store the application works on after loading `raw`, or `None`
      when some record it would read lacks a key. */
  function DecodeStore(raw: seq<RawEntry>): (s: Option<seq<Entry>>)
    ensures s.Some? ==> |s.value| == |raw| && forall k :: 0 <= k < |raw| ==> s.value[k].name == raw[k].name
    ensures s.Some? <==> forall k :: 0 <= k < |raw| ==> DecodeEntry(raw[k]).Some?
  {
    var decoded := seq(|raw|, k requires 0 <= k < |raw| => DecodeEntry(raw[k]));
    if exists k :: 0 <= k < |decoded| && decoded[k].None? then None
    else Some(Values(decoded))
  }

  /** Defaulting twice is defaulting once. */
  lemma DefaultedIdempotent(raw: seq<RawEntry>)
    ensures Defaulted(Defaulted(raw)) == Defaulted(raw)
  {
    forall k | 0 <= k < |raw| ensures DefaultedEntry(DefaultedEntry(raw[k])) == DefaultedEntry(raw[k]) {
      assert DefaultedEntry(DefaultedEntry(raw[k])).tasks == DefaultedEntry(raw[k]).tasks;
    }
  }

  /** A saved store loads back unchanged: the defaulting pass leaves the
      saved records alone and every record decodes to the task saved. */
  lemma LoadAfterSave(entries: seq<Entry>)
    ensures Defaulted(EncodeStore(entries)) == EncodeStore(entries)
    ensures DecodeStore(EncodeStore(entries)) == Some(entries)
  {
    var raw := EncodeStore(entries);
    forall k | 0 <= k < |raw| ensures DefaultedEntry(raw[k]) == raw[k] {
      assert DefaultedEntry(raw[k]).tasks == raw[k].tasks;
    }
    forall k | 0 <= k < |entries| ensures DecodeEntry(raw[k]) == Some(entries[k]) {
      var e := raw[k];
      forall j | 0 <= j < |e.tasks| ensures Decode(e.tasks[j]) == Some(entries[k].tasks[j]) {
        DecodeEncode(entries[k].tasks[j]);
      }
      var decoded := seq(|e.tasks|, j requires 0 <= j < |e.tasks| => Decode(e.tasks[j]));
      assert Values(decoded) == entries[k].tasks;
    }
    var decoded := seq(|raw|, k requires 0 <= k < |raw| => DecodeEntry(raw[k]));
    assert Values(decoded) == entries;
  }

  /** A top-level record from an older file, with only an item and a
      timestamp, loads as a pending task with no due date, no priority and
      no subtasks. */
  lemma LegacyRecordLoads(item: string, timestamp: string)
    ensures Decode(WithDefaults(RawTask(item, timestamp, None, None, None, Missing))) ==
            Some(Task(item, timestamp, false, NoDate, NoPriority, []))
  {
    var d := WithDefaults(RawTask(item, timestamp, None, None, None, Missing));
    assert d.subtasks.records == [];
  }

  /** Only top-level records are defaulted: a subtask record that lacks a
      key still lacks it after loading, and the list holding it does not
      decode. */
  lemma SubtaskRecordsNotDefaulted(item: string, timestamp: string, sub: RawTask)
    requires !HasAllKeys(sub)
    ensures var parent := RawTask(item, timestamp, None, None, None, Present([sub]));
            WithDefaults(parent).subtasks == Present([sub]) &&
            Decode(WithDefaults(parent)) == None
  {
    var parent := RawTask(item, timestamp, None, None, None, Present([sub]));
    assert Decode(WithDefaults(parent).subtasks.records[0]).None?;
  }
}

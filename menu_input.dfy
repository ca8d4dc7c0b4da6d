/** The two pieces of input handling in the list menu that decide what the
    operations receive: the priority check of the add prompts
    (To-Do.py:251-254, 282-285) and the decoding of the position a user
    types to remove or complete a task (To-Do.py:257-262, 266-271). */
module MenuInput {
  import opened TodoModel
  import opened TaskOps
  import opened TodoStore

  /** ASCII upper-casing of one character. */
  function UpperChar(c: char): char {
    if 'a' <= c <= 'z' then (c as int - 32) as char else c
  }

  /** `str.upper` on ASCII: no lower-case letter is left, and every other
      character stays as it was. */
  function Upper(s: string): (r: string)
    ensures |r| == |s|
    ensures forall i :: 0 <= i < |r| ==> !('a' <= r[i] <= 'z')
    ensures forall i :: 0 <= i < |s| && !('a' <= s[i] <= 'z') ==> r[i] == s[i]
    ensures forall i :: 0 <= i < |s| && 'a' <= s[i] <= 'z' ==> r[i] == (s[i] as int - 32) as char
  {
    seq(|s|, i requires 0 <= i < |s| => UpperChar(s[i]))
  }

  /** The priority the prompt accepts: the upper-cased answer when it is
      H, M, L or empty, which is stored as the empty string; `None` is the
      "Invalid priority" message, after which nothing is added. */
  function PriorityInput(s: string): (p: Option<Priority>)
    ensures p.Some? ==> p.value.Code? && p.value.code in {"H", "M", "L", ""}
    ensures p.Some? ==> p.value.code == Upper(s)
  {
    var u := Upper(s);
    if u in {"H", "M", "L", ""} then Some(Code(u)) else None
  }

  /** Exactly seven answers are accepted, in either case; the empty answer
      gives the empty-string priority, which sorts last. */
  lemma PriorityInputAccepts(s: string)
    ensures PriorityInput(s).Some? <==> s in {"H", "h", "M", "m", "L", "l", ""}
    ensures PriorityInput(s).Some? ==> Rank(PriorityInput(s).value) == Rank(Code(Upper(s)))
    ensures s == "" ==> PriorityInput(s) == Some(Code("")) && Rank(Code("")) == 4
    ensures s in {"h", "H"} ==> PriorityInput(s) == Some(Code("H"))
    ensures s in {"m", "M"} ==> PriorityInput(s) == Some(Code("M"))
    ensures s in {"l", "L"} ==> PriorityInput(s) == Some(Code("L"))
  {
    if |s| == 1 {
      var c := s[0];
      assert s == [c] && Upper(s) == [UpperChar(c)];
      assert "H" == ['H'] && "M" == ['M'] && "L" == ['L'];
      assert "h" == ['h'] && "m" == ['m'] && "l" == ['l'];
      assert Upper(s) in {"H", "M", "L", ""} <==> UpperChar(c) in {'H', 'M', 'L'};
      assert s in {"H", "h", "M", "m", "L", "l", ""} <==> c in {'H', 'h', 'M', 'm', 'L', 'l'};
    } else if |s| >= 2 {
      assert |Upper(s)| >= 2;
    }
  }

  predicate IsDigit(c: char) {
    '0' <= c <= '9'
  }

  predicate AllDigits(s: string) {
    forall i :: 0 <= i < |s| ==> IsDigit(s[i])
  }

  /** `int` of a string of decimal digits. */
  function ParseDecimal(s: string): (n: nat)
    requires AllDigits(s)
  {
    if s == [] then 0
    else ParseDecimal(s[..|s| - 1]) * 10 + (s[|s| - 1] as int - '0' as int)
  }

  /** `str` of a natural number: its decimal digits, no leading zero. */
  function Decimal(n: nat): (s: string)
    ensures |s| >= 1 && AllDigits(s)
  {
    if n < 10 then [('0' as int + n) as char]
    else Decimal(n / 10) + [('0' as int + n % 10) as char]
  }

  lemma {:induction false} ParseDecimalOfDecimal(n: nat)
    ensures ParseDecimal(Decimal(n)) == n
  {
    if n >= 10 {
      ParseDecimalOfDecimal(n / 10);
      var s := Decimal(n);
      assert s[..|s| - 1] == Decimal(n / 10);
    }
  }

  /** A label as the list display shows it. */
  predicate Displayed(l: Label) {
    match l
    case Top(n) => n >= 1
    case Sub(p, m) => p >= 1 && 1 <= m <= 26
  }

  /** The position shown before a task: `idx` for a task,
      `str(idx) + chr(96 + sub_idx)` for a subtask (To-Do.py:99-122). */
  function LabelText(l: Label): (s: string)
    requires Displayed(l)
    ensures |s| >= 1
    ensures l.Top? <==> AllDigits(s)
  {
    match l
    case Top(n) => Decimal(n)
    case Sub(p, m) =>
      var s := Decimal(p) + [(96 + m) as char];
      assert !IsDigit(s[|s| - 1]);
      s
  }

  /** The parent position and the position the operations are called with. */
  function ParentOf(l: Label): Option<int> {
    if l.Sub? then Some(l.parent) else None
  }

  lemma AddressOfLabel(l: Label)
    ensures AddressOf(l.index, ParentOf(l)) == l
  {
  }

  /** The decoding as written: with more than one character the first is
      the parent (`int(index[0])`) and the rest must be one character; the
      position is `ord(c) - 96` of the last character, so "a" is 1. `None`
      is an input on which the source raises: empty (`ord("")`), a
      non-digit first character, or more than two characters. */
  function DecodeToken(tok: string): (l: Option<Label>)
    ensures l.Some? <==> |tok| == 1 || (|tok| == 2 && IsDigit(tok[0]))
    ensures l.Some? ==> l.value.index == tok[|tok| - 1] as int - 96
    ensures l.Some? ==> (l.value.Top? <==> |tok| == 1)
    ensures l.Some? && l.value.Sub? ==> l.value.parent == tok[0] as int - '0' as int
  {
    if |tok| == 0 then None
    else if |tok| == 1 then Some(Top(tok[0] as int - 96))
    else if !IsDigit(tok[0]) then None
    else if |tok| > 2 then None
    else Some(Sub(tok[0] as int - '0' as int, tok[1] as int - 96))
  }

  /** As written, typing the label of a top-level task does not reach it:
      a one-digit label n decodes to position n - 48, which no list has, so
      removing or completing with it changes nothing ("Invalid index"). */
  lemma TopLevelLabelMissesAsWritten(tasks: seq<Task>, n: int)
    requires 1 <= n <= 9
    ensures DecodeToken(LabelText(Top(n))) == Some(Top(n - 48))
    ensures TaskAt(tasks, Top(n - 48)) == None
    ensures Removed(tasks, n - 48, None) == tasks && Completed(tasks, n - 48, None) == tasks
    ensures DecodeToken("2") == Some(Top(-46))
    ensures DecodeToken("a") == Some(Top(1))
  {
    assert LabelText(Top(n)) == [('0' as int + n) as char];
  }

  /** As written, no top-level label reaches its task: a one-digit label
      n decodes to position n - 48, a two-digit label to a subtask of the
      first digit's task at a position of -39 or less, and a longer one
      does not decode. Whatever it decodes to designates nothing, and
      removing or completing with it changes nothing. */
  lemma TopLevelLabelNeverReachesAsWritten(tasks: seq<Task>, n: int)
    requires n >= 1
    ensures n <= 9 ==> DecodeToken(LabelText(Top(n))) == Some(Top(n - 48))
    ensures 10 <= n <= 99 ==> DecodeToken(LabelText(Top(n))) == Some(Sub(n / 10, n % 10 - 48))
    ensures n >= 100 ==> DecodeToken(LabelText(Top(n))) == None
    ensures var a := DecodeToken(LabelText(Top(n)));
            a.Some? ==> TaskAt(tasks, a.value) == None
    ensures var a := DecodeToken(LabelText(Top(n)));
            a.Some? && ParentInRange(tasks, ParentOf(a.value)) ==>
              Removed(tasks, a.value.index, ParentOf(a.value)) == tasks &&
              Completed(tasks, a.value.index, ParentOf(a.value)) == tasks
  {
    var s := LabelText(Top(n));
    if n <= 9 {
      assert s == [('0' as int + n) as char];
    } else if n <= 99 {
      assert Decimal(n / 10) == [('0' as int + n / 10) as char];
      assert s == [('0' as int + n / 10) as char, ('0' as int + n % 10) as char];
    } else {
      assert |Decimal(n / 10)| >= 2;
    }
  }

  /** As written, the subtasks of the tenth task onwards cannot be
      addressed: their labels have three or more characters. */
  lemma MultiDigitParentFailsAsWritten(p: int, m: int)
    requires p >= 10 && 1 <= m <= 26
    ensures DecodeToken(LabelText(Sub(p, m))) == None
  {
    assert |Decimal(p)| >= 2;
  }

  /** The decoding the prompt evidently intends: digits alone are the
      position of a task, digits followed by a lower-case letter a..z the
      position of that subtask of that task; anything else is rejected. */
  function DecodeAddress(tok: string): (l: Option<Label>)
    ensures l.Some? && l.value.Top? ==> l.value.index >= 0
    ensures l.Some? && l.value.Sub? ==> l.value.parent >= 0 && 1 <= l.value.index <= 26
    ensures l.Some? ==> |tok| >= 1 && (l.value.Top? <==> AllDigits(tok))
    ensures |tok| >= 1 && AllDigits(tok) ==> l == Some(Top(ParseDecimal(tok)))
    ensures |tok| >= 2 && AllDigits(tok[..|tok| - 1]) && 'a' <= tok[|tok| - 1] <= 'z' ==>
              l == Some(Sub(ParseDecimal(tok[..|tok| - 1]), tok[|tok| - 1] as int - 96))
    ensures l.Some? && l.value.Sub? ==>
              |tok| >= 2 && AllDigits(tok[..|tok| - 1]) && 'a' <= tok[|tok| - 1] <= 'z'
  {
    if |tok| == 0 then None
    else if AllDigits(tok) then Some(Top(ParseDecimal(tok)))
    else
      var last := tok[|tok| - 1];
      var init := tok[..|tok| - 1];
      if |init| >= 1 && AllDigits(init) && 'a' <= last <= 'z' then Some(Sub(ParseDecimal(init), last as int - 96))
      else None
  }

  /** Every label the display shows decodes back to itself. */
  lemma DecodeLabelText(l: Label)
    requires Displayed(l)
    ensures DecodeAddress(LabelText(l)) == Some(l)
  {
    match l
    case Top(n) =>
      ParseDecimalOfDecimal(n);
    case Sub(p, m) =>
      ParseDecimalOfDecimal(p);
      var s := LabelText(l);
      assert s[..|s| - 1] == Decimal(p);
      assert !IsDigit(s[|s| - 1]);
  }

  /** The corrected decoding keeps what worked: a subtask label with a
      one-digit parent decodes as it did before. */
  lemma DecodersAgreeOnSubtasks(p: int, m: int)
    requires 1 <= p <= 9 && 1 <= m <= 26
    ensures DecodeToken(LabelText(Sub(p, m))) == DecodeAddress(LabelText(Sub(p, m))) == Some(Sub(p, m))
  {
    DecodeLabelText(Sub(p, m));
    assert LabelText(Sub(p, m)) == [('0' as int + p) as char, (96 + m) as char];
  }

  /** The task a displayed label designates is reached by typing that
      label: it decodes to itself and its parent position is in range. */
  lemma ShownLabelReachesTask(tasks: seq<Task>, l: Label)
    requires Displayed(l) && TaskAt(tasks, l).Some?
    ensures DecodeAddress(LabelText(l)) == Some(l)
    ensures ParentInRange(tasks, ParentOf(l))
    ensures TaskAt(tasks, AddressOf(l.index, ParentOf(l))) == TaskAt(tasks, l)
  {
    DecodeLabelText(l);
  }

  /** Whether a decoded position can be passed on: its parent, if any, is a
      task of the list. The source does not check this. */
  predicate Usable(tasks: seq<Task>, a: Option<Label>) {
    a.Some? && ParentInRange(tasks, ParentOf(a.value))
  }

  /** The remove choice of the list menu with the corrected decoding: a
      usable position goes to `remove_todo`, anything else changes nothing. */
  method RemoveItem(list: TodoList, tok: string) returns (removed: Option<Task>)
    modifies list
    ensures var a := DecodeAddress(tok);
            if Usable(old(list.tasks), a) then
              removed == TaskAt(old(list.tasks), a.value) &&
              list.tasks == Removed(old(list.tasks), a.value.index, ParentOf(a.value))
            else
              removed == None && list.tasks == old(list.tasks)
  {
    var a := DecodeAddress(tok);
    if a.Some? && ParentInRange(list.tasks, ParentOf(a.value)) {
      AddressOfLabel(a.value);
      removed := list.RemoveTodo(a.value.index, ParentOf(a.value));
    } else {
      removed := None;
    }
  }

  /** The mark-completed choice of the list menu with the corrected
      decoding. */
  method MarkItem(list: TodoList, tok: string) returns (marked: Option<Task>)
    modifies list
    ensures var a := DecodeAddress(tok);
            if Usable(old(list.tasks), a) then
              marked == TaskAt(list.tasks, a.value) &&
              list.tasks == Completed(old(list.tasks), a.value.index, ParentOf(a.value))
            else
              marked == None && list.tasks == old(list.tasks)
  {
    var a := DecodeAddress(tok);
    if a.Some? && ParentInRange(list.tasks, ParentOf(a.value)) {
      AddressOfLabel(a.value);
      marked := list.MarkCompleted(a.value.index, ParentOf(a.value));
    } else {
      marked := None;
    }
  }
}

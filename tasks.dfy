/** The stored task records and the rules `ToDoList` applies to the stored array:
    the existence check, the validation of a new task, and the first-match
    remove, rename and toggle. Each operation reads the whole array, changes it and
    writes it back, so each is stated here as a function from the old array to the
    new one. */
module Tasks {
  import opened JsValues

  /** One stored record `{name, checked, day, priority}`. `day` is the day code
      taken from the date input, `priority` the text of the priority field ("" when
      none was chosen). */
  datatype Task = Task(name: string, checked: bool, day: int, priority: string)

  /** Why `newTask` rejects its input. */
  datatype AddError =
    | MissingDay     // no date chosen: reading its day throws before any other check
    | EmptyName      // the name field is the empty string
    | DuplicateName  // a stored record already has exactly this name

  /** `validateIfExistsNewTask`: some stored record has exactly this name. */
  function Exists(s: seq<Task>, name: string): (b: bool)
    ensures b <==> exists i :: 0 <= i < |s| && s[i].name == name
  {
    if s == [] then false else s[0].name == name || Exists(s[1..], name)
  }

  /** `findIndex(task => task.name === name)`: the first position holding the name,
      or -1. `find` picks the record at this same position. */
  function FindIndex(s: seq<Task>, name: string): (i: int)
    ensures -1 <= i < |s|
    ensures i == -1 <==> forall j :: 0 <= j < |s| ==> s[j].name != name
    ensures 0 <= i ==> s[i].name == name && forall j :: 0 <= j < i ==> s[j].name != name
  {
    if s == [] then -1
    else if s[0].name == name then 0
    else
      var k := FindIndex(s[1..], name);
      if k == -1 then -1 else k + 1
  }

  /** No two stored records share a name; `newTask` keeps this, rename does not. */
  ghost predicate UniqueNames(s: seq<Task>) {
    forall i, j :: 0 <= i < j < |s| ==> s[i].name != s[j].name
  }

  /** The checks of `newTask` in the order they take effect. `day` is `None` when
      no date was chosen. */
  function CheckNewTask(s: seq<Task>, name: string, day: Option<int>): (r: Option<AddError>)
    ensures r == Some(MissingDay) <==> day == None
    ensures r == Some(EmptyName) <==> day != None && name == ""
    ensures r == Some(DuplicateName) <==>
      day != None && name != "" && exists i :: 0 <= i < |s| && s[i].name == name
    ensures r == None <==>
      day != None && name != "" && forall i :: 0 <= i < |s| ==> s[i].name != name
  {
    if day == None then Some(MissingDay)
    else if name == "" then Some(EmptyName)
    else if Exists(s, name) then Some(DuplicateName)
    else None
  }

  /** The record `newTask` appends: never checked at creation. */
  function NewRecord(name: string, day: int, priority: string): (t: Task)
    ensures t.name == name && !t.checked && t.day == day && t.priority == priority
  {
    Task(name, false, day, priority)
  }

  /** `removeItem`: the array without its first record of that name. */
  function Removed(s: seq<Task>, name: string): (r: seq<Task>)
    ensures |r| == if Exists(s, name) then |s| - 1 else |s|
  {
    var i := FindIndex(s, name);
    if i == -1 then s else s[..i] + s[i + 1..]
  }

  /** `editItem`: the first record of that name takes the prompt's answer as its
      name; `newValue` is `None` when the prompt was cancelled. */
  function Renamed(s: seq<Task>, name: string, newValue: Option<string>): (r: seq<Task>)
    ensures |r| == |s|
  {
    var i := FindIndex(s, name);
    if i == -1 || newValue == None then s else s[i := s[i].(name := newValue.value)]
  }

  /** `checkItem`: the first record of that name has its `checked` flag flipped. */
  function Toggled(s: seq<Task>, name: string): (r: seq<Task>)
    ensures |r| == |s|
  {
    var i := FindIndex(s, name);
    if i == -1 then s else s[i := s[i].(checked := !s[i].checked)]
  }

  // ---------------------------------------------------------------- add

  /** After a successful add the new record is the one every later lookup of its
      name finds, at the end of the array. */
  lemma AddedIsFound(s: seq<Task>, name: string, day: int, priority: string)
    requires CheckNewTask(s, name, Some(day)) == None
    ensures Exists(s + [NewRecord(name, day, priority)], name)
    ensures FindIndex(s + [NewRecord(name, day, priority)], name) == |s|
  {
    var t := s + [NewRecord(name, day, priority)];
    assert t[|s|].name == name;
    assert forall j :: 0 <= j < |s| ==> t[j] == s[j];
  }

  /** Adding keeps the names unique: the duplicate check runs against every
      stored record. */
  lemma AddKeepsUnique(s: seq<Task>, name: string, day: int, priority: string)
    requires UniqueNames(s)
    requires CheckNewTask(s, name, Some(day)) == None
    ensures UniqueNames(s + [NewRecord(name, day, priority)])
  {
    var t := s + [NewRecord(name, day, priority)];
    forall i, j | 0 <= i < j < |t| ensures t[i].name != t[j].name {
      if j == |s| {
        assert t[i] == s[i];
      } else {
        assert t[i] == s[i] && t[j] == s[j];
      }
    }
  }

  // ---------------------------------------------------------------- remove

  /** Deleting position i keeps the records before it, shifts the later ones down
      by one, and takes one copy of s[i] out of the multiset. */
  lemma DeleteAt(s: seq<Task>, i: int)
    requires 0 <= i < |s|
    ensures var r := s[..i] + s[i + 1..];
      && (forall j :: 0 <= j < i ==> r[j] == s[j])
      && (forall j :: i <= j < |r| ==> r[j] == s[j + 1])
      && multiset(r) + multiset{s[i]} == multiset(s)
  {
    var front, back := s[..i], s[i + 1..];
    assert s == front + [s[i]] + back;
    calc {
      multiset(s);
      multiset(front + [s[i]]) + multiset(back);
      multiset(front) + multiset{s[i]} + multiset(back);
      multiset(front + back) + multiset{s[i]};
    }
  }

  /** Remove deletes exactly the first record of that name and keeps the others in
      order; it leaves the array as it was when no record has the name. */
  lemma RemoveFirstMatch(s: seq<Task>, name: string)
    ensures !Exists(s, name) ==> Removed(s, name) == s
    ensures Exists(s, name) ==>
      var i, r := FindIndex(s, name), Removed(s, name);
      && (forall j :: 0 <= j < i ==> r[j] == s[j])
      && (forall j :: i <= j < |r| ==> r[j] == s[j + 1])
      && multiset(r) + multiset{s[i]} == multiset(s)
  {
    if Exists(s, name) {
      DeleteAt(s, FindIndex(s, name));
    }
  }

  /** With unique names, a removed name is gone from the array. */
  lemma RemoveUniqueThenAbsent(s: seq<Task>, name: string)
    requires UniqueNames(s)
    ensures !Exists(Removed(s, name), name)
  {
    var i := FindIndex(s, name);
    if i != -1 {
      var r := Removed(s, name);
      forall j | 0 <= j < |r| ensures r[j].name != name {
        if j < i {
          assert r[j] == s[j];
        } else {
          assert r[j] == s[j + 1];
        }
      }
    }
  }

  /** With a duplicated name (reachable through rename), removing it once leaves the
      later record of that name in place. */
  lemma RemoveLeavesLaterDuplicate(s: seq<Task>, name: string, i: int, j: int)
    requires 0 <= i < j < |s| && s[i].name == name && s[j].name == name
    ensures Exists(Removed(s, name), name)
  {
    var k := FindIndex(s, name);
    assert k <= i;
    var r := Removed(s, name);
    assert r[j - 1] == s[j];
  }

  /** Removing a record keeps the names unique. */
  lemma RemoveKeepsUnique(s: seq<Task>, name: string)
    requires UniqueNames(s)
    ensures UniqueNames(Removed(s, name))
  {
    var k := FindIndex(s, name);
    if k != -1 {
      RemoveFirstMatch(s, name);
      var r := Removed(s, name);
      forall i, j | 0 <= i < j < |r| ensures r[i].name != r[j].name {
        var i' := if i < k then i else i + 1;
        var j' := if j < k then j else j + 1;
        assert r[i] == s[i'] && r[j] == s[j'];
      }
    }
  }

  // ---------------------------------------------------------------- rename

  /** Rename changes only the name of the first record with the old name, to any
      answer the prompt gives (empty or duplicate included); a cancelled prompt or
      an absent name leaves the array as it was. */
  lemma RenameFirstMatch(s: seq<Task>, name: string, newValue: Option<string>)
    ensures !Exists(s, name) || newValue == None ==> Renamed(s, name, newValue) == s
    ensures Exists(s, name) && newValue != None ==>
      var i, r := FindIndex(s, name), Renamed(s, name, newValue);
      && r[i] == Task(newValue.value, s[i].checked, s[i].day, s[i].priority)
      && forall j :: 0 <= j < |s| && j != i ==> r[j] == s[j]
  {
  }

  /** After a rename the new name is present. */
  lemma RenamedIsFound(s: seq<Task>, name: string, newName: string)
    requires Exists(s, name)
    ensures Exists(Renamed(s, name, Some(newName)), newName)
  {
    var i := FindIndex(s, name);
    assert Renamed(s, name, Some(newName))[i].name == newName;
  }

  /** Rename does not re-check uniqueness: renaming to the name of another record
      leaves two records with that name. */
  lemma RenameCanDuplicate(s: seq<Task>, name: string, newName: string, j: int)
    requires Exists(s, name)
    requires 0 <= j < |s| && j != FindIndex(s, name) && s[j].name == newName
    ensures !UniqueNames(Renamed(s, name, Some(newName)))
  {
    var i := FindIndex(s, name);
    var r := Renamed(s, name, Some(newName));
    assert r[i].name == newName && r[j].name == newName;
    if i < j {
      assert !(r[i].name != r[j].name);
    } else {
      assert !(r[j].name != r[i].name);
    }
  }

  // ---------------------------------------------------------------- toggle

  /** Toggle flips `checked` on the first record of that name and changes nothing
      else; it leaves the array as it was when no record has the name. */
  lemma ToggleFirstMatch(s: seq<Task>, name: string)
    ensures !Exists(s, name) ==> Toggled(s, name) == s
    ensures Exists(s, name) ==>
      var i, r := FindIndex(s, name), Toggled(s, name);
      && r[i] == Task(s[i].name, !s[i].checked, s[i].day, s[i].priority)
      && forall j :: 0 <= j < |s| && j != i ==> r[j] == s[j]
  {
  }

  /** Two arrays with the same names in the same places give the same lookups. */
  lemma {:induction false} FindIndexByNames(s: seq<Task>, t: seq<Task>, name: string)
    requires |s| == |t| && forall j :: 0 <= j < |s| ==> s[j].name == t[j].name
    ensures FindIndex(s, name) == FindIndex(t, name)
  {
    if s != [] && s[0].name != name {
      FindIndexByNames(s[1..], t[1..], name);
    }
  }

  /** Toggling the same name twice restores the array. */
  lemma ToggleTwice(s: seq<Task>, name: string)
    ensures Toggled(Toggled(s, name), name) == s
  {
    var r := Toggled(s, name);
    FindIndexByNames(s, r, name);
  }
}

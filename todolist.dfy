/** The `ToDoList` class: the stored task array and the seven day lists drawn from
    it. Every operation works on the whole stored array and, when it changed the
    array, redraws the lists from it. */
module App {
  import opened JsValues
  import opened Tasks
  import opened Grouping

  /** `list` is how day `k` of the stored array `s` is drawn: the records of that
      day, rearranged by the priority sort. */
  ghost predicate Shows(s: seq<Task>, k: int, list: seq<Task>) {
    && multiset(list) == multiset(Bucket(s, k))
    && (AllPrioritized(Bucket(s, k)) ==> PriorityOrdered(list))
    && (NonePrioritized(Bucket(s, k)) ==> list == Bucket(s, k))
  }

  class ToDoList {
    /** The array saved under the storage key 'to-do-list-gn'. */
    var tasks: seq<Task>
    /** The page's `tasksByDay` table: index 0 (Monday) to 6 (Sunday). */
    var tasksByDay: seq<seq<Task>>

    ghost predicate Valid()
      reads this
    {
      |tasksByDay| == 7 && forall k :: 0 <= k < 7 ==> Shows(tasks, k, tasksByDay[k])
    }

    /** `new ToDoList()` followed by `initialize()`, on a page whose storage holds
        `stored` (the empty array when nothing was saved yet). */
    constructor (stored: seq<Task>)
      ensures tasks == stored
      ensures Valid()
    {
      tasks := stored;
      tasksByDay := [];
      new;
      ShowValues();
    }

    /** `showValues`: clears the seven lists, distributes the stored records by day
        code in stored order, then sorts each list by priority. */
    method ShowValues()
      modifies this`tasksByDay
      ensures Valid()
    {
      tasksByDay := [[], [], [], [], [], [], []];
      var values := tasks;
      for i := 0 to |values|
        invariant |tasksByDay| == 7
        invariant forall k :: 0 <= k < 7 ==> tasksByDay[k] == Bucket(values[..i], k)
      {
        var t := values[i];
        if t.day == 0 {
          tasksByDay := tasksByDay[0 := tasksByDay[0] + [t]];
        } else if t.day == 1 {
          tasksByDay := tasksByDay[1 := tasksByDay[1] + [t]];
        } else if t.day == 2 {
          tasksByDay := tasksByDay[2 := tasksByDay[2] + [t]];
        } else if t.day == 3 {
          tasksByDay := tasksByDay[3 := tasksByDay[3] + [t]];
        } else if t.day == 4 {
          tasksByDay := tasksByDay[4 := tasksByDay[4] + [t]];
        } else if t.day == 5 {
          tasksByDay := tasksByDay[5 := tasksByDay[5] + [t]];
        } else {
          tasksByDay := tasksByDay[6 := tasksByDay[6] + [t]];
        }
        assert values[..i + 1] == values[..i] + [t];
        forall k | 0 <= k < 7 ensures tasksByDay[k] == Bucket(values[..i + 1], k) {
          BucketAppend(values[..i], t, k);
        }
      }
      assert values[..|values|] == values;
      SortDay(0);
      SortDay(1);
      SortDay(2);
      SortDay(3);
      SortDay(4);
      SortDay(5);
      SortDay(6);
    }

    /** The sort of one day's list, in place in the table. */
    method SortDay(k: int)
      requires 0 <= k < 7 && |tasksByDay| == 7
      requires forall j :: k <= j < 7 ==> tasksByDay[j] == Bucket(tasks, j)
      requires forall j :: 0 <= j < k ==> Shows(tasks, j, tasksByDay[j])
      modifies this`tasksByDay
      ensures |tasksByDay| == 7
      ensures forall j :: k < j < 7 ==> tasksByDay[j] == Bucket(tasks, j)
      ensures forall j :: 0 <= j <= k ==> Shows(tasks, j, tasksByDay[j])
      ensures forall j :: 0 <= j < 7 && j != k ==> tasksByDay[j] == old(tasksByDay[j])
    {
      var sorted := SortByPriority(tasksByDay[k]);
      tasksByDay := tasksByDay[k := sorted];
    }

    /** `newTask` with the form's name, the chosen date's day code (`None` when no
        date is chosen) and the priority field. A rejected task leaves everything as
        it was; an accepted one is appended, saved and drawn. */
    method NewTask(name: string, date: Option<int>, priority: string) returns (error: Option<AddError>)
      requires Valid()
      modifies this
      ensures Valid()
      ensures error == CheckNewTask(old(tasks), name, date)
      ensures error == None ==> tasks == old(tasks) + [NewRecord(name, date.value, priority)]
      ensures error == None ==> NewRecord(name, date.value, priority) in tasksByDay[DayIndex(date.value)]
      ensures error != None ==> tasks == old(tasks) && tasksByDay == old(tasksByDay)
    {
      if date == None {
        // reading the day of a missing date throws before any other check
        return Some(MissingDay);
      }
      var inputDate := date.value;
      if name == "" {
        return Some(EmptyName);
      }
      if Exists(tasks, name) {
        return Some(DuplicateName);
      }
      var values := tasks;
      values := values + [NewRecord(name, inputDate, priority)];
      tasks := values;
      ShowValues();
      error := None;
      var t := NewRecord(name, inputDate, priority);
      AddedRecordShown(old(tasks), t);
      assert t in multiset(Bucket(tasks, DayIndex(inputDate)));
    }

    /** `removeItem`: deletes the first record of that name, if any. */
    method RemoveItem(taskName: string)
      requires Valid()
      modifies this
      ensures Valid()
      ensures tasks == Removed(old(tasks), taskName)
      ensures !Exists(old(tasks), taskName) ==> tasksByDay == old(tasksByDay)
    {
      var values := tasks;
      var index := FindIndex(values, taskName);
      if index != -1 {
        values := values[..index] + values[index + 1..];
        tasks := values;
        ShowValues();
      }
    }

    /** `editItem`: `newValue` is the prompt's answer, `None` when cancelled. The
        first record of that name takes the answer as its name; the answer is not checked
        against the other names. */
    method EditItem(taskName: string, newValue: Option<string>)
      requires Valid()
      modifies this
      ensures Valid()
      ensures tasks == Renamed(old(tasks), taskName, newValue)
      ensures !Exists(old(tasks), taskName) || newValue == None ==> tasksByDay == old(tasksByDay)
    {
      var values := tasks;
      var index := FindIndex(values, taskName);
      if index != -1 {
        if newValue != None {
          values := values[index := values[index].(name := newValue.value)];
          tasks := values;
          ShowValues();
        }
      }
    }

    /** `checkItem`: flips the `checked` flag of the first record of that name. */
    method CheckItem(taskName: string)
      requires Valid()
      modifies this
      ensures Valid()
      ensures tasks == Toggled(old(tasks), taskName)
      ensures !Exists(old(tasks), taskName) ==> tasksByDay == old(tasksByDay)
    {
      var values := tasks;
      var index := FindIndex(values, taskName);
      if index != -1 {
        values := values[index := values[index].(checked := !values[index].checked)];
        tasks := values;
        ShowValues();
      }
    }
  }
}

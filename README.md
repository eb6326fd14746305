# Weekly to-do list: task store, day grouping and priority ordering

This project models the core of a browser to-do list that organizes tasks by day of the week (`script.js`). The page keeps one array of task records `{name, checked, day, priority}` in local storage under the key `to-do-list-gn`. Class `ToDoList` adds records to that array, removes them, renames them and toggles their `checked` flag. Each record is looked up by its exact name, and the first match wins. After every change, `showValues` rebuilds the page's seven day lists (Monday "Segunda-feira" to Sunday "Domingo") from the stored array and sorts each list by priority. `createTaskHTML` then draws a signal icon for each task's priority.

Modules:

- `JsValues` (`jsvalues.dfy`) holds `Option` (for JavaScript `null`) and `Number(string)`. The priority comparator and the loose `==` both use `Number` to turn the stored priority string into a number.
- `Tasks` (`tasks.dfy`) holds the record type, the existence check and the validation of a new task. It also defines each change to the stored array as a function from the old array to the new one, with lemmas about those functions.
- `Grouping` (`grouping.dfy`) maps day codes to lists and defines the lists as order-preserving filters. It also holds the source's comparator and the per-day sort. The sort is an insertion sort on an array and is proved against its specification.
- `Icons` (`icons.dfy`) maps a priority to its icon.
- `App` (`todolist.dfy`) holds class `ToDoList`. Field `tasks` is the stored array. Field `tasksByDay` is the page's day table. `Valid()` says that the table is the sorted grouping of `tasks`, and every method keeps `Valid()`. Each method states its new `tasks` as a function of the old one, using the functions of `Tasks`.

The model follows the code as written:

- A task with no date is rejected before the name is checked. Calling `getDay()` on a `null` date throws at script.js:123, before the empty-name test at script.js:127. The `inputDate == null` test at script.js:131 can never fire.
- Only the empty string counts as an empty name. A name made only of white space is accepted.
- Rename rejects only a cancelled prompt. It accepts an empty new name and does not check whether the new name is already used.
- For a list that mixes prioritized and unprioritized records, the code fixes no order, and the model promises none.

## Model

| member | source | states |
|---|---|---|
| `Tasks.Exists` | script.js:96-99 | true exactly when some stored record has exactly the given name |
| `Tasks.FindIndex` | script.js:377 | -1 exactly when no record has the name; otherwise the position of the first record with it (the record `find` returns at script.js:389 and 404) |
| `Tasks.CheckNewTask` | script.js:120-137 | the add is rejected for a missing day first, then for an empty name, then for a name some stored record already has; it is accepted exactly when none of these holds |
| `Tasks.NewRecord` | script.js:147-152 | the stored record carries the given name, day and priority, and is created unchecked |
| `Tasks.Removed` | script.js:375-384 | one record shorter when the name is present; the same length otherwise |
| `Tasks.Renamed` | script.js:387-399 | the rename keeps the number of records |
| `Tasks.Toggled` | script.js:402-411 | the toggle keeps the number of records |
| `Tasks.AddedIsFound` | script.js:139-154 | after an accepted add, the name exists, and the new record at the end of the array is the first record with that name |
| `Tasks.AddKeepsUnique` | script.js:135-152 | an accepted add keeps all stored names distinct |
| `Tasks.RemoveFirstMatch` | script.js:375-384 | remove deletes exactly the first record with the name and keeps the others in their order (one copy of that record leaves the multiset); with no match, the array is unchanged |
| `Tasks.RemoveUniqueThenAbsent` | script.js:377-380 | when names are distinct, the removed name no longer exists |
| `Tasks.RemoveLeavesLaterDuplicate` | script.js:377-380 | when two records share the name, removing it once leaves the later record in place |
| `Tasks.RemoveKeepsUnique` | script.js:375-384 | remove keeps distinct names distinct |
| `Tasks.RenameFirstMatch` | script.js:387-399 | a cancelled prompt or an absent name leaves the array unchanged; otherwise only the first matching record changes, and only in its name (checked, day and priority kept), whatever the answer |
| `Tasks.RenamedIsFound` | script.js:393-395 | after a rename of a present name, the new name exists |
| `Tasks.RenameCanDuplicate` | script.js:392-394 | renaming to the name of another record leaves two records with that name |
| `Tasks.ToggleFirstMatch` | script.js:402-411 | toggle flips `checked` on the first matching record only and keeps every other field and record; with no match it changes nothing |
| `Tasks.FindIndexByNames` | script.js:404 | the lookup depends only on the names, in order |
| `Tasks.ToggleTwice` | script.js:406-407 | toggling the same name twice restores the array |
| `Grouping.DayIndex` | script.js:201-216 | day codes 0 to 5 go to Monday to Saturday; every other code goes to Sunday (6) |
| `Grouping.Bucket` | script.js:201-217 | a day's list holds only stored records whose day code maps to that day |
| `Grouping.BucketAppend` | script.js:201-217 | a record pushed in stored order goes to the end of its own list only |
| `Grouping.BucketConcat` | script.js:201-217 | the lists keep stored order: the lists of a concatenation are the concatenations of the lists |
| `Grouping.BucketCount` | script.js:201-217 | list k holds each record whose day code maps to k exactly as many times as it is stored, and holds no other record |
| `Grouping.InExactlyOneBucket` | script.js:201-217 | every stored record is in its own day's list and in no other list |
| `Grouping.BucketSizesSum` | script.js:201-217 | the seven list sizes add up to the number of stored records |
| `Grouping.AddedRecordShown` | script.js:147-155 | a newly appended record goes to the end of its day's list (before sorting), and the other lists are unchanged |
| `Grouping.Compare` | script.js:220-231 | the comparator returns 0 (`undefined`) exactly when a priority is empty; it returns 1 exactly when both records have numeric priorities and the first is greater; it returns -1 exactly when both priorities are non-empty and that does not hold (equal numbers and NaN included) |
| `Grouping.CompareInconsistent` | script.js:226-229 | two records with equal priorities are each reported as smaller than the other |
| `Grouping.SwapWithPrevious` | script.js:220 | exchanging two neighbours keeps the multiset of records |
| `Grouping.InsertAt` | script.js:220-231 | one insertion step keeps the multiset, keeps every record prioritized, extends an ascending prefix by one record, and moves nothing when no record has a priority |
| `Grouping.SortByPriority` | script.js:220-285 | the sorted list is a permutation of the list (all the standard promises for this comparator); as an engine's insertion or merge sort does, it is in ascending numeric priority when every record has a priority and unchanged when no record has one |
| `JsValues.TrimStartShape` | script.js:228 | `Number` drops a leading run of white space and stops at the first other character |
| `JsValues.TrimEndShape` | script.js:228 | `Number` drops a trailing run of white space and stops at the last other character |
| `JsValues.ToNumber` | script.js:228 | `Number` of a stored priority: never negative; 0 for an empty or all-white-space text; the decimal value for a plain digit string. Signs, fractions, exponents, `Infinity` and radix literals are modelled as NaN |
| `JsValues.DecimalZero` | script.js:228 | a digit string is worth 0 exactly when all its digits are zeros |
| `JsValues.DecimalDigitValue` | script.js:228 | a digit string is worth a digit value 1 to 9 exactly when it is zeros followed by that digit |
| `JsValues.NumberOfZerosThenDigit` | script.js:323 | in the modelled `Number` (see `JsValues.ToNumber`), for every text, `Number` gives a value 1 to 9 exactly when the trimmed text is zeros followed by that digit |
| `JsValues.DigitToNumber` | script.js:228 | a one-digit priority converts to its digit's value |
| `JsValues.LeadingZeroValue` | script.js:323 | leading zeros do not change the value |
| `JsValues.TrimStartPadded` | script.js:323 | leading white space is trimmed away |
| `JsValues.LeadingWhiteSpaceIgnored` | script.js:323 | leading white space does not change the number |
| `JsValues.NonDigitIsNaN` | script.js:228 | in the modelled `Number` (digits only, see `JsValues.ToNumber`), text containing a character that is neither white space nor a digit converts to NaN |
| `Icons.LooselyEquals` | script.js:323-333 | in the modelled `Number` (see `JsValues.ToNumber`), the loose `priority == n` for n = 1 to 9 holds exactly when the trimmed text is zeros followed by the digit of n |
| `Icons.PriorityIcon` | script.js:322-338 | in the modelled `Number` (see `JsValues.ToNumber`), over every text: signal-2 exactly for zeros then "3", signal-3 exactly for zeros then "2", signal-5 exactly for zeros then "1" (white space around ignored), and no icon for anything else |
| `Icons.IconOfCodes` | script.js:322-338 | "3" gives signal-2, "2" gives signal-3, "1" gives signal-5, and the empty priority gives no icon |
| `Icons.IconInverted` | script.js:322-338 | an icon is drawn exactly when the priority converts to 1, 2 or 3; a smaller number draws more bars |
| `Icons.LooseMatch` | script.js:322-323 | the loose comparison also matches text such as " 03" as 3 |
| `App.ToDoList.constructor` | script.js:75-93 | starts from the stored array and draws it, so the day table is valid |
| `App.ToDoList.ShowValues` | script.js:171-285 | rebuilds the day table: each day's list is a permutation of that day's records, in ascending priority when all are prioritized, and in stored order when none are |
| `App.ToDoList.SortDay` | script.js:220-285 | sorting one list turns it into a valid drawing of its day and leaves the other six lists unchanged |
| `App.ToDoList.NewTask` | script.js:112-168 | reports the first failed check and then changes nothing; otherwise appends exactly the new unchecked record, and the record appears in its day's list |
| `App.ToDoList.RemoveItem` | script.js:375-384 | the new array is the old one without its first record of that name; with no match, nothing changes |
| `App.ToDoList.EditItem` | script.js:387-399 | the new array is the old one with the first match renamed; a cancelled prompt or an absent name changes nothing |
| `App.ToDoList.CheckItem` | script.js:402-411 | the new array is the old one with the first match's flag flipped; with no match, nothing changes |

## Left out

- Local storage and JSON (script.js:102-109). These are outside the model. The stored array is the field `tasks`, and saving and reading it back are taken to give the same array, because there is a single writer.
- The DOM is not modelled. That covers reading the form, clearing it, the red border, emptying the list elements, and building the HTML and SVG strings (script.js:91-92, 114-118, 160, 165-167, 183-198, 288-314, 340-371). Only the icon choice of `createTaskHTML` is modelled.
- `alert`, `prompt` and `console.error` are left out. The prompt's answer is the `newValue` parameter of `EditItem`.
- `valueAsDate` and `getDay()` are left out. Their results depend on the time zone. The model takes the day code as given. `getDay()` numbers Sunday as 0, while the grouping treats 0 as Monday; the model keeps the grouping's labels as written.
- The transient `Task` and `PriorityTask` objects are left out, because they never reach the stored array. So are `setDescription`, `setDueDate` and the unused `TaskList` class.
- App.ToDoList.NewTask: the exception message for a missing date (a `TypeError` from `getDay`) is reduced to the error kind `MissingDay`.
- Grouping.SortByPriority: the comparator is inconsistent for every non-empty list. A prioritized record compares as smaller than itself, and an unprioritized one yields `undefined`. For such a comparator, ECMAScript 2023 section 23.1.3.30 promises only a permutation. The two ordering clauses (ascending when all records are prioritized, unchanged when none is) assume an engine that sorts by insertion or merging, as this model does. That goes beyond what the standard promises.
- JsValues.ToNumber: `Number` is modelled for white-space trimming, the empty string, and plain decimal digits. Signs, fractions, exponents, `Infinity` and `0x`/`0o`/`0b` literals are all treated as NaN. Integer values are not rounded to double precision.
- JsValues.NumberOfZerosThenDigit: the equivalence holds for the modelled `Number` only. JavaScript's `Number` also gives 3 for "3.0", "+3", "3e0" and "0x3", which are not zeros followed by a digit.
- Icons.LooselyEquals: "3.0", "+3", "3e0" and "0x3" are loosely equal to 3 on the page, but not in the model.
- Icons.PriorityIcon: the page draws the signal-2 icon for "3.0", "+3", "3e0" and "0x3" (and likewise for 2 and 1); the model draws no icon for them.

/** The day grouping and priority ordering that `showValues` applies to the stored
    array before drawing it: seven lists, index 0 (Monday, "Segunda-feira") to
    6 (Sunday, "Domingo"), each sorted with the source's priority comparator. */
module Grouping {
  import opened JsValues
  import opened Tasks

  /** The list a record with this day code is drawn in: codes 0 to 5 name Monday to
      Saturday, and every other code falls to Sunday (6) through the final `else`. */
  function DayIndex(day: int): (k: int)
    ensures 0 <= k < 7
    ensures 0 <= day < 6 ==> k == day
    ensures !(0 <= day < 6) ==> k == 6
  {
    if 0 <= day < 6 then day else 6
  }

  /** The records of list `k`, in the order they are stored. */
  function Bucket(s: seq<Task>, k: int): (b: seq<Task>)
    ensures |b| <= |s|
    ensures forall t :: t in b ==> t in s && DayIndex(t.day) == k
  {
    if s == [] then []
    else Bucket(s[..|s| - 1], k) + (if DayIndex(s[|s| - 1].day) == k then [s[|s| - 1]] else [])
  }

  /** Appending a record to the array appends it to its own list only. */
  lemma BucketAppend(s: seq<Task>, t: Task, k: int)
    ensures Bucket(s + [t], k) == Bucket(s, k) + (if DayIndex(t.day) == k then [t] else [])
  {
    assert (s + [t])[..|s|] == s;
  }

  /** Grouping keeps stored order: the lists of a concatenation are the
      concatenations of the lists. */
  lemma {:induction false} BucketConcat(a: seq<Task>, b: seq<Task>, k: int)
    ensures Bucket(a + b, k) == Bucket(a, k) + Bucket(b, k)
  {
    if b == [] {
      assert a + b == a;
    } else {
      var c := b[..|b| - 1];
      var t := b[|b| - 1];
      assert b == c + [t];
      assert a + b == (a + c) + [t];
      var x := if DayIndex(t.day) == k then [t] else [];
      calc {
        Bucket(a + b, k);
        { BucketAppend(a + c, t, k); }
        Bucket(a + c, k) + x;
        { BucketConcat(a, c, k); }
        (Bucket(a, k) + Bucket(c, k)) + x;
        Bucket(a, k) + (Bucket(c, k) + x);
        { BucketAppend(c, t, k); }
        Bucket(a, k) + Bucket(b, k);
      }
    }
  }

  /** List `k` holds exactly the records whose day code maps to `k`, each as many
      times as it is stored, and no other record. */
  lemma {:induction false} BucketCount(s: seq<Task>, k: int, t: Task)
    ensures multiset(Bucket(s, k))[t] == if DayIndex(t.day) == k then multiset(s)[t] else 0
  {
    if s != [] {
      var p, u := s[..|s| - 1], s[|s| - 1];
      assert s == p + [u];
      BucketCount(p, k, t);
      BucketAppend(p, u, k);
    }
  }

  /** Every stored record is in exactly one list, the one its day code maps to. */
  lemma InExactlyOneBucket(s: seq<Task>, t: Task)
    requires t in s
    ensures t in Bucket(s, DayIndex(t.day))
    ensures forall k :: 0 <= k < 7 && k != DayIndex(t.day) ==> t !in Bucket(s, k)
  {
    BucketCount(s, DayIndex(t.day), t);
    forall k | 0 <= k < 7 && k != DayIndex(t.day) ensures t !in Bucket(s, k) {
      BucketCount(s, k, t);
    }
  }

  /** The seven list sizes add up to the number of stored records. */
  lemma {:induction false} BucketSizesSum(s: seq<Task>)
    ensures |Bucket(s, 0)| + |Bucket(s, 1)| + |Bucket(s, 2)| + |Bucket(s, 3)|
          + |Bucket(s, 4)| + |Bucket(s, 5)| + |Bucket(s, 6)| == |s|
  {
    if s != [] {
      var p, u := s[..|s| - 1], s[|s| - 1];
      assert s == p + [u];
      BucketSizesSum(p);
      forall k | 0 <= k < 7
        ensures |Bucket(s, k)| == |Bucket(p, k)| + (if DayIndex(u.day) == k then 1 else 0)
      {
        BucketAppend(p, u, k);
      }
    }
  }

  /** A record just added is drawn at the end of its day's list (before sorting),
      and the other lists are unchanged. */
  lemma AddedRecordShown(s: seq<Task>, t: Task)
    ensures Bucket(s + [t], DayIndex(t.day)) == Bucket(s, DayIndex(t.day)) + [t]
    ensures forall k :: k != DayIndex(t.day) ==> Bucket(s + [t], k) == Bucket(s, k)
  {
    BucketAppend(s, t, DayIndex(t.day));
    forall k | k != DayIndex(t.day) ensures Bucket(s + [t], k) == Bucket(s, k) {
      BucketAppend(s, t, k);
    }
  }

  // ---------------------------------------------------------------- ordering

  /** A record the comparator wraps in a `PriorityTask` (non-empty priority) and whose
      priority converts to a number. */
  predicate Prioritized(t: Task) {
    t.priority != "" && ToNumber(t.priority).Some?
  }

  /** The numeric priority of a record, `Number(priority)` (0 stands in for NaN). */
  function Key(t: Task): int {
    match ToNumber(t.priority)
    case Some(n) => n
    case None => 0
  }

  /** The comparator of the seven per-day sorts. With both priorities non-empty it
      answers 1 when the first is numerically greater and -1 otherwise (equal
      priorities and NaN included); otherwise it falls through and returns
      `undefined`, which the sort reads as 0. */
  function Compare(a: Task, b: Task): (c: int)
    ensures c == 0 <==> a.priority == "" || b.priority == ""
    ensures c == 1 <==> Prioritized(a) && Prioritized(b) && Key(a) > Key(b)
    ensures c == -1 <==>
      a.priority != "" && b.priority != "" && !(Prioritized(a) && Prioritized(b) && Key(a) > Key(b))
  {
    if a.priority != "" && b.priority != "" then
      match (ToNumber(a.priority), ToNumber(b.priority))
      case (Some(x), Some(y)) => if x > y then 1 else -1
      case _ => -1
    else 0
  }

  /** The comparator is not consistent: two records of equal priority are each
      reported as smaller than the other. */
  lemma CompareInconsistent(a: Task, b: Task)
    requires Prioritized(a) && Prioritized(b) && Key(a) == Key(b)
    ensures Compare(a, b) == -1 && Compare(b, a) == -1
  {
  }

  predicate AllPrioritized(s: seq<Task>) {
    forall i :: 0 <= i < |s| ==> Prioritized(s[i])
  }

  predicate NonePrioritized(s: seq<Task>) {
    forall i :: 0 <= i < |s| ==> s[i].priority == ""
  }

  predicate PriorityOrdered(s: seq<Task>) {
    forall i, j :: 0 <= i < j < |s| ==> Key(s[i]) <= Key(s[j])
  }

  /** Exchanges a[j - 1] and a[j]. */
  method SwapWithPrevious(a: array<Task>, j: int)
    requires 0 < j < a.Length
    modifies a
    ensures a[..] == old(a[..])[j - 1 := old(a[j])][j := old(a[j - 1])]
    ensures multiset(a[..]) == old(multiset(a[..]))
  {
    a[j - 1], a[j] := a[j], a[j - 1];
  }

  predicate ArrayPrioritized(a: array<Task>)
    reads a
  {
    forall p :: 0 <= p < a.Length ==> Prioritized(a[p])
  }

  predicate ArrayUnprioritized(a: array<Task>)
    reads a
  {
    forall p :: 0 <= p < a.Length ==> a[p].priority == ""
  }

  /** a[0..n) is in ascending numeric priority. */
  predicate SortedPrefix(a: array<Task>, n: int)
    reads a
  {
    forall p, q :: 0 <= p < q < n && q < a.Length ==> Key(a[p]) <= Key(a[q])
  }

  /** The order an insertion pass keeps while a[i] travels left and sits at j:
      s[0..i] is ascending apart from position j, and s[j] is below every later
      record up to i. */
  predicate OrderedAround(s: seq<Task>, i: int, j: int) {
    && 0 <= j <= i < |s|
    && (forall p, q :: 0 <= p < q <= i && p != j && q != j ==> Key(s[p]) <= Key(s[q]))
    && (forall q :: j < q <= i ==> Key(s[j]) < Key(s[q]))
  }

  /** Exchanging s[j - 1] and s[j] when s[j - 1] has the greater key moves the
      travelling record one place left and keeps the order around it. */
  lemma SwapKeepsOrder(b: seq<Task>, c: seq<Task>, i: int, j: int)
    requires OrderedAround(b, i, j) && 0 < j
    requires c == b[j - 1 := b[j]][j := b[j - 1]]
    requires Key(b[j - 1]) > Key(b[j])
    ensures OrderedAround(c, i, j - 1)
  {
  }

  /** Exchanging two neighbours keeps every record prioritized. */
  lemma SwapKeepsPrioritized(b: seq<Task>, c: seq<Task>, j: int)
    requires 0 < j < |b| && c == b[j - 1 := b[j]][j := b[j - 1]]
    requires AllPrioritized(b)
    ensures AllPrioritized(c)
  {
  }

  /** The pass stops at j = 0 or below a record with a key no greater: s[0..i] is
      then ascending. */
  lemma InsertDone(s: seq<Task>, i: int, j: int)
    requires OrderedAround(s, i, j)
    requires j == 0 || Key(s[j - 1]) <= Key(s[j])
    ensures forall p, q :: 0 <= p < q <= i ==> Key(s[p]) <= Key(s[q])
  {
  }

  /** One pass of the sort: a[i] moves left past every neighbour the comparator
      calls greater (answer 1), and stops at the first that is not. */
  method InsertAt(a: array<Task>, i: int)
    requires 0 <= i < a.Length
    modifies a
    ensures multiset(a[..]) == old(multiset(a[..]))
    ensures old(ArrayPrioritized(a)) ==> ArrayPrioritized(a)
    ensures old(ArrayPrioritized(a) && SortedPrefix(a, i)) ==> SortedPrefix(a, i + 1)
    ensures old(ArrayUnprioritized(a)) ==> a[..] == old(a[..])
  {
    ghost var all := ArrayPrioritized(a);
    ghost var sorted := all && SortedPrefix(a, i);
    ghost var none := ArrayUnprioritized(a);
    var j := i;
    while j > 0 && Compare(a[j - 1], a[j]) == 1
      invariant 0 <= j <= i
      invariant multiset(a[..]) == old(multiset(a[..]))
      invariant all ==> AllPrioritized(a[..])
      invariant sorted ==> OrderedAround(a[..], i, j)
      invariant none ==> j == i && a[..] == old(a[..])
    {
      ghost var b := a[..];
      SwapWithPrevious(a, j);
      if all {
        SwapKeepsPrioritized(b, a[..], j);
      }
      if sorted {
        SwapKeepsOrder(b, a[..], i, j);
      }
      j := j - 1;
    }
    if sorted {
      InsertDone(a[..], i, j);
    }
  }

  /** `list.sort(comparator)` for one day's list, done here as an insertion sort
      driven by `Compare`. The comparator is not consistent (a prioritized record
      compares as smaller than itself, and an unprioritized one yields `undefined`),
      so the standard promises no particular order, only a rearrangement of the
      list. The two ordering clauses describe what an engine's insertion or merge
      sort (this one included) produces: ascending numeric priority when every
      record has a priority, and the list itself when none has one (every
      comparison is then 0). */
  method SortByPriority(list: seq<Task>) returns (sorted: seq<Task>)
    ensures multiset(sorted) == multiset(list)
    ensures AllPrioritized(list) ==> PriorityOrdered(sorted)
    ensures NonePrioritized(list) ==> sorted == list
  {
    var a := new Task[|list|](i requires 0 <= i < |list| => list[i]);
    assert a[..] == list;
    ghost var all := AllPrioritized(list);
    ghost var none := NonePrioritized(list);
    var i := 0;
    while i < a.Length
      invariant 0 <= i <= a.Length
      invariant multiset(a[..]) == multiset(list)
      invariant all ==> ArrayPrioritized(a) && SortedPrefix(a, i)
      invariant none ==> a[..] == list
    {
      InsertAt(a, i);
      i := i + 1;
    }
    sorted := a[..];
  }
}

/** The first version's statistics screen: the status pie (in-progress
    against completed, optionally for one list), the per-list pie for one
    status, the per-list task totals, and the colour names it reads. */
module StatisticView {
  import opened Wrappers
  import opened Seqs
  import opened Palette
  import opened Store
  import opened ListView

  /** A pie slice: its share of the whole and its colour. */
  datatype Slice = Slice(share: real, color: Color)

  /** `colorFromString(_: String?)`: the eight stored names map to their
      colour; anything else, and a missing string, to gray. */
  function ColorFromString(colorString: Option<string>): (c: Color)
    ensures colorString.Some? && IsPaletteName(colorString.value) ==> Name(c) == colorString.value
    ensures !(colorString.Some? && IsPaletteName(colorString.value)) ==> c == Gray
  {
    match colorString
    case Some("red") => Red
    case Some("orange") => Orange
    case Some("yellow") => Yellow
    case Some("green") => Green
    case Some("blue") => Blue
    case Some("purple") => Purple
    case Some("gray") => Gray
    case Some("pink") => Pink
    case _ => Gray
  }

  /** Every colour's stored name reads back as that colour. */
  lemma ColorNameRoundTrip(c: Color)
    ensures ColorFromString(Some(Name(c))) == c
  {
    NameInjective(c, ColorFromString(Some(Name(c))));
  }

  predicate StatusAndList(status: string, listId: ObjectId, t: Task) {
    HasStatus(status, t) && InList(listId, t)
  }

  /** `fetchTasks(with:)`: the tasks with that status, and of the selected
      list when one is selected. The fetch has no sort descriptors; the
      model keeps store order. */
  function FetchTasksWithStatus(ts: seq<Task>, status: string, selectedFilter: Option<ObjectId>): (r: seq<Task>)
    ensures forall t :: t in r <==>
              t in ts && HasStatus(status, t) && (selectedFilter.Some? ==> InList(selectedFilter.value, t))
    ensures selectedFilter.None? ==> r == WithStatus(ts, status)
  {
    match selectedFilter
    case Some(listId) => Filter(ts, (t: Task) => StatusAndList(status, listId, t))
    case None => Filter(ts, (t: Task) => HasStatus(status, t))
  }

  /** `fetchTasks(with:for:)`: the tasks with that status in that list. */
  function FetchTasksFor(ts: seq<Task>, status: string, listId: ObjectId): (r: seq<Task>)
    ensures forall t :: t in r <==> t in ts && HasStatus(status, t) && InList(listId, t)
  {
    Filter(ts, (t: Task) => StatusAndList(status, listId, t))
  }

  /** The per-list fetch is the status fetch with that list selected. */
  lemma FetchForIsSelectedFetch(ts: seq<Task>, status: string, listId: ObjectId)
    ensures FetchTasksFor(ts, status, listId) == FetchTasksWithStatus(ts, status, Some(listId))
  {
  }

  /** `fetchNumberOfTasks(for:)`: all of a list's tasks, whatever their
      status. */
  function FetchNumberOfTasks(ts: seq<Task>, listId: ObjectId): (n: nat)
    ensures n <= |ts|
    ensures n == 0 <==> forall t | t in ts :: !InList(listId, t)
  {
    var r := Filter(ts, (t: Task) => InList(listId, t));
    assert r != [] ==> r[0] in r;
    |r|
  }

  /** A list's count for one status never exceeds its total. */
  lemma StatusCountWithinTotal(ts: seq<Task>, status: string, listId: ObjectId)
    ensures |FetchTasksFor(ts, status, listId)| <= FetchNumberOfTasks(ts, listId)
  {
    FilterMonotone(ts, (t: Task) => StatusAndList(status, listId, t), (t: Task) => InList(listId, t));
  }

  /** The total counts exactly the tasks of the list: adding a task of the
      list, whatever its status, raises it by one; adding a task of another
      list, or of none, leaves it alone. */
  lemma CountsExactlyTasksOfList(ts: seq<Task>, listId: ObjectId, t: Task)
    ensures FetchNumberOfTasks(ts + [t], listId)
            == FetchNumberOfTasks(ts, listId) + (if InList(listId, t) then 1 else 0)
  {
    FilterAppend(ts, [t], (u: Task) => InList(listId, u));
    assert [t][1..] == [];
  }

  predicate OtherStatusIn(listId: ObjectId, t: Task) {
    InList(listId, t) && NeitherStatus(t)
  }

  /** A list's total is its in-progress count, plus its completed count,
      plus its tasks with any other status or none. */
  lemma {:induction false} TotalPartitionsByStatus(ts: seq<Task>, listId: ObjectId)
    ensures FetchNumberOfTasks(ts, listId)
            == |FetchTasksFor(ts, "In Progress", listId)| + |FetchTasksFor(ts, "Completed", listId)|
               + |Filter(ts, (t: Task) => OtherStatusIn(listId, t))|
  {
    if ts != [] {
      TotalPartitionsByStatus(ts[1..], listId);
    }
  }

  /** The two status shares (in progress in blue, completed in orange)
      from the two counts. */
  function StatusSlices(inProgress: nat, completed: nat): (r: seq<Slice>)
    ensures |r| == 2 && r[0].color == Blue && r[1].color == Orange
    ensures r[0].share + r[1].share == 1.0
    ensures 0.0 <= r[1].share <= 1.0 && 0.0 <= r[0].share <= 1.0
    ensures inProgress + completed == 0 ==> r[0].share == 1.0 && r[1].share == 0.0
    ensures inProgress + completed > 0 ==>
              r[1].share * (inProgress + completed) as real == completed as real
              && r[0].share * (inProgress + completed) as real == inProgress as real
  {
    var total := (inProgress + completed) as real;
    var completedShare := if total == 0.0 then 0.0 else completed as real / total;
    [Slice(1.0 - completedShare, Blue), Slice(completedShare, Orange)]
  }

  /** `taskStatusPieSlices`. */
  function TaskStatusPieSlices(ts: seq<Task>, selectedFilter: Option<ObjectId>): seq<Slice> {
    StatusSlices(|FetchTasksWithStatus(ts, "In Progress", selectedFilter)|,
                 |FetchTasksWithStatus(ts, "Completed", selectedFilter)|)
  }

  /** An empty store shows everything in progress: shares (1, 0). */
  lemma EmptyStoreStatusShares(selectedFilter: Option<ObjectId>)
    ensures TaskStatusPieSlices([], selectedFilter) == [Slice(1.0, Blue), Slice(0.0, Orange)]
  {
  }

  /** The dictionary `filteredTasksForPieChart` after its loop has visited
      `rows`: each visited list's identity maps to its tasks with `status`. */
  function PieMap(ts: seq<Task>, rows: seq<TaskList>, status: string): (d: map<ObjectId, seq<Task>>)
    ensures d.Keys == set l | l in rows :: l.id
  {
    if rows == [] then map[]
    else
      var last := rows[|rows| - 1];
      var before := PieMap(ts, rows[..|rows| - 1], status);
      assert forall l :: l in rows <==> l in rows[..|rows| - 1] || l == last;
      before[last.id := FetchTasksFor(ts, status, last.id)]
  }

  /** Every visited list maps to its own tasks with the status. */
  lemma {:induction false} PieMapAt(ts: seq<Task>, rows: seq<TaskList>, status: string, k: nat)
    requires k < |rows|
    ensures PieMap(ts, rows, status)[rows[k].id] == FetchTasksFor(ts, status, rows[k].id)
  {
    if k < |rows| - 1 {
      assert rows[..|rows| - 1][k] == rows[k];
      PieMapAt(ts, rows[..|rows| - 1], status, k);
    }
  }

  /** `filteredTasksForPieChart`: one entry per list of the name-ordered
      fetch, holding that list's tasks with `taskStatusFilter`. */
  method FilteredTasksForPieChart(ts: seq<Task>, rows: seq<TaskList>, taskStatusFilter: string)
    returns (tasksDictionary: map<ObjectId, seq<Task>>)
    ensures tasksDictionary == PieMap(ts, rows, taskStatusFilter)
    ensures tasksDictionary.Keys == set l | l in rows :: l.id
    ensures forall l | l in rows :: tasksDictionary[l.id] == FetchTasksFor(ts, taskStatusFilter, l.id)
  {
    tasksDictionary := map[];
    for i := 0 to |rows|
      invariant tasksDictionary == PieMap(ts, rows[..i], taskStatusFilter)
    {
      assert rows[..i + 1][..i] == rows[..i];
      tasksDictionary := tasksDictionary[rows[i].id := FetchTasksFor(ts, taskStatusFilter, rows[i].id)];
    }
    assert rows[..|rows|] == rows;
    forall l | l in rows ensures tasksDictionary[l.id] == FetchTasksFor(ts, taskStatusFilter, l.id) {
      var k :| 0 <= k < |rows| && rows[k] == l;
      PieMapAt(ts, rows, taskStatusFilter, k);
    }
  }

  /** `values.flatMap { $0 }.count`: the number of tasks over all the
      dictionary's entries. */
  ghost function DictionaryTaskCount(d: map<ObjectId, seq<Task>>): nat
    decreases |d|
  {
    if d == map[] then 0
    else
      var k :| k in d;
      assert |d.Keys - {k}| < |d.Keys|;
      |d[k]| + DictionaryTaskCount(d - {k})
  }

  /** The count does not depend on which entry is taken first. */
  lemma {:induction false} DictionaryTaskCountRemove(d: map<ObjectId, seq<Task>>, k: ObjectId)
    requires k in d
    ensures DictionaryTaskCount(d) == |d[k]| + DictionaryTaskCount(d - {k})
    decreases |d|
  {
    var j :| j in d && DictionaryTaskCount(d) == |d[j]| + DictionaryTaskCount(d - {j});
    if j != k {
      assert |(d - {j}).Keys| < |d.Keys| && |(d - {k}).Keys| < |d.Keys|;
      DictionaryTaskCountRemove(d - {j}, k);
      DictionaryTaskCountRemove(d - {k}, j);
      assert d - {j} - {k} == d - {k} - {j};
    }
  }

  /** The number of tasks with `status` over the lists `rows`. */
  function PieTotal(ts: seq<Task>, rows: seq<TaskList>, status: string): nat {
    if rows == [] then 0
    else |FetchTasksFor(ts, status, rows[0].id)| + PieTotal(ts, rows[1..], status)
  }

  predicate HasMatching(ts: seq<Task>, status: string, l: TaskList) {
    |FetchTasksFor(ts, status, l.id)| > 0
  }

  /** The `compactMap` over the lists: a slice for each list with at least
      one matching task, in list order. */
  function SlicesFor(ts: seq<Task>, rows: seq<TaskList>, status: string, total: nat): (r: seq<Slice>)
    requires total > 0
    ensures |r| <= |rows|
  {
    if rows == [] then []
    else
      HeadSlice(|FetchTasksFor(ts, status, rows[0].id)|, total, rows[0]) + SlicesFor(ts, rows[1..], status, total)
  }

  /** `listPieSlices`, over the name-ordered lists `rows`; the status is
      `taskStatusFilter`, and the selected list plays no part. */
  function ListPieSlices(ts: seq<Task>, rows: seq<TaskList>, taskStatusFilter: string): seq<Slice> {
    var total := PieTotal(ts, rows, taskStatusFilter);
    if total == 0 then [] else SlicesFor(ts, rows, taskStatusFilter, total)
  }

  /** There are no slices exactly when no list has a matching task. */
  lemma {:induction false} NoSlicesIffNoMatches(ts: seq<Task>, rows: seq<TaskList>, status: string)
    ensures ListPieSlices(ts, rows, status) == [] <==> forall l | l in rows :: !HasMatching(ts, status, l)
  {
    PieTotalZeroIff(ts, rows, status);
    var total := PieTotal(ts, rows, status);
    if total > 0 {
      SlicesMatchNonEmptyLists(ts, rows, status, total);
      var nonEmpty := Filter(rows, (l: TaskList) => HasMatching(ts, status, l));
      var l :| l in rows && HasMatching(ts, status, l);
      assert l in nonEmpty;
    }
  }

  lemma {:induction false} PieTotalZeroIff(ts: seq<Task>, rows: seq<TaskList>, status: string)
    ensures PieTotal(ts, rows, status) == 0 <==> forall l | l in rows :: !HasMatching(ts, status, l)
  {
    if rows != [] {
      PieTotalZeroIff(ts, rows[1..], status);
      if PieTotal(ts, rows, status) == 0 {
        forall l | l in rows ensures !HasMatching(ts, status, l) {
          if l != rows[0] {
            var k :| 0 <= k < |rows| && rows[k] == l;
            assert rows[1..][k - 1] == l;
          }
        }
      } else if |FetchTasksFor(ts, status, rows[0].id)| == 0 {
        var l :| l in rows[1..] && HasMatching(ts, status, l);
        assert l in rows;
      } else {
        assert rows[0] in rows && HasMatching(ts, status, rows[0]);
      }
    }
  }

  /** The slices are, in order, one per list with a matching task, each
      holding that list's matching count over the total and its colour. */
  lemma {:induction false} SlicesMatchNonEmptyLists(ts: seq<Task>, rows: seq<TaskList>, status: string, total: nat)
    requires total > 0
    ensures var nonEmpty := Filter(rows, (l: TaskList) => HasMatching(ts, status, l));
            && |SlicesFor(ts, rows, status, total)| == |nonEmpty|
            && forall k | 0 <= k < |nonEmpty| ::
                 SlicesFor(ts, rows, status, total)[k]
                   == Slice(|FetchTasksFor(ts, status, nonEmpty[k].id)| as real / total as real,
                            ColorFromString(nonEmpty[k].colorString))
  {
    if rows != [] {
      SlicesMatchNonEmptyLists(ts, rows[1..], status, total);
    }
  }

  /** Adding the last list's matching tasks. */
  lemma {:induction false} PieTotalSnoc(ts: seq<Task>, rows: seq<TaskList>, status: string)
    requires rows != []
    ensures PieTotal(ts, rows, status)
            == PieTotal(ts, rows[..|rows| - 1], status) + |FetchTasksFor(ts, status, rows[|rows| - 1].id)|
  {
    if |rows| > 1 {
      var front := rows[..|rows| - 1];
      PieTotalSnoc(ts, rows[1..], status);
      assert rows[1..][..|rows[1..]| - 1] == front[1..];
      assert front[0] == rows[0];
    } else {
      assert rows[1..] == [] && rows[..0] == [];
    }
  }

  /** The dictionary the loop builds over lists with distinct identities
      holds, in all, the pie total's tasks. */
  lemma {:induction false} PieTotalIsDictionaryCount(ts: seq<Task>, rows: seq<TaskList>, status: string)
    requires DistinctBy(rows, ListKey)
    ensures DictionaryTaskCount(PieMap(ts, rows, status)) == PieTotal(ts, rows, status)
  {
    if rows != [] {
      var front := rows[..|rows| - 1];
      LastIsFresh(rows);
      PieTotalIsDictionaryCount(ts, front, status);
      PieTotalSnoc(ts, rows, status);
      PieMapSnoc(ts, rows, status);
    }
  }

  /** The last of distinct lists is new to those before it. */
  lemma LastIsFresh(rows: seq<TaskList>)
    requires rows != [] && DistinctBy(rows, ListKey)
    ensures DistinctBy(rows[..|rows| - 1], ListKey)
    ensures forall l | l in rows[..|rows| - 1] :: l.id != rows[|rows| - 1].id
  {
    var front := rows[..|rows| - 1];
    assert forall i | 0 <= i < |front| :: front[i] == rows[i];
    forall l | l in front ensures l.id != rows[|rows| - 1].id {
      var i :| 0 <= i < |front| && front[i] == l;
      assert ListKey(rows[i]) != ListKey(rows[|rows| - 1]);
    }
  }

  /** The loop's last step adds one entry to the dictionary's count. */
  lemma PieMapSnoc(ts: seq<Task>, rows: seq<TaskList>, status: string)
    requires rows != []
    requires forall l | l in rows[..|rows| - 1] :: l.id != rows[|rows| - 1].id
    ensures DictionaryTaskCount(PieMap(ts, rows, status))
            == DictionaryTaskCount(PieMap(ts, rows[..|rows| - 1], status))
               + |FetchTasksFor(ts, status, rows[|rows| - 1].id)|
  {
    var last := rows[|rows| - 1];
    var before := PieMap(ts, rows[..|rows| - 1], status);
    var d := PieMap(ts, rows, status);
    assert last.id !in before;
    assert d == before[last.id := FetchTasksFor(ts, status, last.id)];
    DictionaryTaskCountRemove(d, last.id);
    assert d - {last.id} == before;
  }

  /** The `compactMap` as written: each list's slice read from the
      dictionary `d`, against `total`. */
  function SlicesFromDictionary(d: map<ObjectId, seq<Task>>, rows: seq<TaskList>, total: nat): (r: seq<Slice>)
    requires total > 0
    ensures |r| <= |rows|
  {
    if rows == [] then []
    else
      var n := if rows[0].id in d then |d[rows[0].id]| else 0;
      HeadSlice(n, total, rows[0]) + SlicesFromDictionary(d, rows[1..], total)
  }

  /** Reading each list's tasks from a dictionary that holds its fetch
      gives the same slices as fetching them. */
  lemma {:induction false} DictionarySlicesAreFetchSlices(d: map<ObjectId, seq<Task>>, ts: seq<Task>,
                                                         rows: seq<TaskList>, status: string, total: nat)
    requires total > 0
    requires forall l | l in rows :: l.id in d && d[l.id] == FetchTasksFor(ts, status, l.id)
    ensures SlicesFromDictionary(d, rows, total) == SlicesFor(ts, rows, status, total)
  {
    if rows != [] {
      assert rows[0] in rows;
      assert forall l | l in rows[1..] :: l in rows;
      DictionarySlicesAreFetchSlices(d, ts, rows[1..], status, total);
    }
  }

  /** `listPieSlices` as written, total and slices both read from the
      dictionary, is ListPieSlices whenever the lists' identities are
      distinct. */
  lemma ListPieReadsDictionary(ts: seq<Task>, rows: seq<TaskList>, status: string)
    requires DistinctBy(rows, ListKey)
    ensures var d := PieMap(ts, rows, status);
            var total := DictionaryTaskCount(d);
            ListPieSlices(ts, rows, status) == if total == 0 then [] else SlicesFromDictionary(d, rows, total)
  {
    var d := PieMap(ts, rows, status);
    PieTotalIsDictionaryCount(ts, rows, status);
    forall l | l in rows ensures l.id in d && d[l.id] == FetchTasksFor(ts, status, l.id) {
      var k :| 0 <= k < |rows| && rows[k] == l;
      PieMapAt(ts, rows, status, k);
    }
    var total := DictionaryTaskCount(d);
    if total > 0 {
      DictionarySlicesAreFetchSlices(d, ts, rows, status, total);
    }
  }

  /** The shares of a slice sequence. */
  function SumShares(slices: seq<Slice>): real {
    if slices == [] then 0.0 else slices[0].share + SumShares(slices[1..])
  }

  lemma {:induction false} SumSharesAppend(a: seq<Slice>, b: seq<Slice>)
    ensures SumShares(a + b) == SumShares(a) + SumShares(b)
  {
    if a == [] {
      assert a + b == b;
    } else {
      assert (a + b)[0] == a[0];
      assert (a + b)[1..] == a[1..] + b;
      SumSharesAppend(a[1..], b);
    }
  }

  /** The slices over `rows` add up to those lists' share of the total. */
  lemma {:induction false} SlicesSumToCountShare(ts: seq<Task>, rows: seq<TaskList>, status: string, total: nat)
    requires total > 0
    ensures SumShares(SlicesFor(ts, rows, status, total)) == PieTotal(ts, rows, status) as real / total as real
  {
    if rows != [] {
      var n := |FetchTasksFor(ts, status, rows[0].id)|;
      var head := HeadSlice(n, total, rows[0]);
      var rest := PieTotal(ts, rows[1..], status);
      SumSharesAppend(head, SlicesFor(ts, rows[1..], status, total));
      SlicesSumToCountShare(ts, rows[1..], status, total);
      DivAdd(n as real, rest as real, total as real);
    }
  }

  /** The slice, if any, that list `l` with `n` matching tasks adds. */
  function HeadSlice(n: nat, total: nat, l: TaskList): (r: seq<Slice>)
    requires total > 0
    ensures SumShares(r) == n as real / total as real
  {
    if n > 0 then [Slice(n as real / total as real, ColorFromString(l.colorString))] else []
  }

  lemma DivAdd(x: real, y: real, t: real)
    requires t > 0.0
    ensures x / t + y / t == (x + y) / t
  {
  }

  /** Whenever there are slices, their shares add up to one. */
  lemma ListSharesSumToOne(ts: seq<Task>, rows: seq<TaskList>, status: string)
    requires ListPieSlices(ts, rows, status) != []
    ensures SumShares(ListPieSlices(ts, rows, status)) == 1.0
  {
    var total := PieTotal(ts, rows, status);
    assert total > 0;
    assert ListPieSlices(ts, rows, status) == SlicesFor(ts, rows, status, total);
    SlicesSumToCountShare(ts, rows, status, total);
    DivSelf(total as real);
  }

  lemma DivSelf(t: real)
    requires t > 0.0
    ensures t / t == 1.0
  {
  }
}

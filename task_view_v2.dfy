/** The second version's task value, its status, and the task screen's
    row selection (`TaskView.filteredIndices`). */
module TaskViewV2 {
  import opened Wrappers
  import opened Text

  /** Stands for a `UUID`; only equality matters. */
  type Uuid = nat

  datatype TaskStatus = InProgress | Completed

  function RawValue(s: TaskStatus): (r: string)
    ensures r == "In Progress" <==> s == InProgress
    ensures r == "Completed" <==> s == Completed
  {
    match s
    case InProgress => "In Progress"
    case Completed => "Completed"
  }

  /** The picker starts on "In Progress"; `None` is the "All" tag. */
  const DefaultSelectedStatus: Option<TaskStatus> := Some(InProgress)

  /** Dates are instants in seconds. */
  datatype TaskModel = TaskModel(id: Uuid, name: string, status: TaskStatus, description: string, dueDate: int, time: int)

  /** A row is shown when it passes the status filter (none, or equal) and
      the search (empty, or contained in the lower-cased name). */
  predicate Matches(selectedStatus: Option<TaskStatus>, searchText: string, t: TaskModel) {
    && (selectedStatus.None? || t.status == selectedStatus.value)
    && (searchText == "" || Contains(Lower(t.name), Lower(searchText)))
  }

  /** The indices among the first `n` tasks that are shown, in order. */
  function IndicesUpTo(tasks: seq<TaskModel>, selectedStatus: Option<TaskStatus>, searchText: string, n: nat): (r: seq<nat>)
    requires n <= |tasks|
    ensures forall a, b | 0 <= a < b < |r| :: r[a] < r[b]
    ensures forall a | 0 <= a < |r| :: r[a] < n
    ensures forall i: nat {:trigger i in r} :: i in r <==> i < n && Matches(selectedStatus, searchText, tasks[i])
    ensures |r| <= n
  {
    if n == 0 then []
    else
      var prefix := IndicesUpTo(tasks, selectedStatus, searchText, n - 1);
      prefix + (if Matches(selectedStatus, searchText, tasks[n - 1]) then [n - 1] else [])
  }

  /** The rows of the task list. */
  function Indices(tasks: seq<TaskModel>, selectedStatus: Option<TaskStatus>, searchText: string): seq<nat> {
    IndicesUpTo(tasks, selectedStatus, searchText, |tasks|)
  }

  /** `filteredIndices`: walks the tasks, skipping those that fail either
      test, and collects the indices of the rest. */
  method FilteredIndices(tasks: seq<TaskModel>, selectedStatus: Option<TaskStatus>, searchText: string)
    returns (result: seq<nat>)
    ensures result == Indices(tasks, selectedStatus, searchText)
    ensures forall a, b | 0 <= a < b < |result| :: result[a] < result[b]
    ensures forall i: nat :: i in result <==> i < |tasks| && Matches(selectedStatus, searchText, tasks[i])
  {
    result := [];
    for index := 0 to |tasks|
      invariant result == IndicesUpTo(tasks, selectedStatus, searchText, index)
    {
      var task := tasks[index];
      if selectedStatus.Some? && task.status != selectedStatus.value {
        continue;
      }
      if searchText != "" && !Contains(Lower(task.name), Lower(searchText)) {
        continue;
      }
      result := result + [index];
    }
  }

  /** The last of the first `n` tasks is shown after the rows before it
      exactly when it matches. */
  lemma IndicesUpToStep(tasks: seq<TaskModel>, selectedStatus: Option<TaskStatus>, searchText: string, n: nat)
    requires 0 < n <= |tasks|
    ensures IndicesUpTo(tasks, selectedStatus, searchText, n)
            == IndicesUpTo(tasks, selectedStatus, searchText, n - 1)
               + (if Matches(selectedStatus, searchText, tasks[n - 1]) then [n - 1] else [])
  {
  }

  /** The indices 0, ..., m - 1 followed by m are 0, ..., m. */
  lemma CountingUpExtends(prefix: seq<nat>)
    requires forall i | 0 <= i < |prefix| :: prefix[i] == i
    ensures forall i | 0 <= i < |prefix| + 1 :: (prefix + [|prefix|])[i] == i
  {
  }

  /** "All" with an empty search shows every row: the rows are the
      indices 0, 1, ..., n - 1. */
  lemma {:induction false} AllShowsEveryRow(tasks: seq<TaskModel>, n: nat)
    requires n <= |tasks|
    ensures |IndicesUpTo(tasks, None, "", n)| == n
    ensures forall i | 0 <= i < n :: IndicesUpTo(tasks, None, "", n)[i] == i
  {
    if n > 0 {
      AllShowsEveryRow(tasks, n - 1);
      IndicesUpToStep(tasks, None, "", n);
      assert Matches(None, "", tasks[n - 1]);
      CountingUpExtends(IndicesUpTo(tasks, None, "", n - 1));
    }
  }

  /** Both filters together show no row that either alone would hide. */
  lemma BothFiltersNarrowEither(tasks: seq<TaskModel>, status: TaskStatus, searchText: string)
    ensures forall i: nat :: i in Indices(tasks, Some(status), searchText) ==>
              i in Indices(tasks, Some(status), "") && i in Indices(tasks, None, searchText)
  {
  }

  /** Searches that differ only in letter case show the same rows. */
  lemma {:induction false} SearchIsCaseInsensitive(tasks: seq<TaskModel>, selectedStatus: Option<TaskStatus>,
                                                   s1: string, s2: string, n: nat)
    requires n <= |tasks| && Lower(s1) == Lower(s2)
    ensures IndicesUpTo(tasks, selectedStatus, s1, n) == IndicesUpTo(tasks, selectedStatus, s2, n)
  {
    assert (s1 == "") == (s2 == "") by {
      assert |Lower(s1)| == |s1| && |Lower(s2)| == |s2|;
    }
    if n > 0 {
      SearchIsCaseInsensitive(tasks, selectedStatus, s1, s2, n - 1);
      assert Matches(selectedStatus, s1, tasks[n - 1]) == Matches(selectedStatus, s2, tasks[n - 1]);
    }
  }
}

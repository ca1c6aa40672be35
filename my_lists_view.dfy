/** The first version's list row: the number of in-progress tasks it shows
    and its icon colour. */
module MyListsView {
  import opened Wrappers
  import opened Seqs
  import opened Palette
  import opened Store
  import opened ListView
  import StatisticView

  predicate InProgressIn(listId: ObjectId, t: Task) {
    InList(listId, t) && HasStatus("In Progress", t)
  }

  /** `fetchNumberOfTasks()`: the tasks of this list whose status is
      exactly "In Progress". */
  function FetchNumberOfTasks(ts: seq<Task>, listId: ObjectId): (n: nat)
    ensures n <= StatisticView.FetchNumberOfTasks(ts, listId)
    ensures n == |StatisticView.FetchTasksFor(ts, "In Progress", listId)|
  {
    FilterMonotone(ts, (t: Task) => InProgressIn(listId, t), (t: Task) => InList(listId, t));
    FilterCongruent(ts, (t: Task) => InProgressIn(listId, t),
                    (t: Task) => StatisticView.StatusAndList("In Progress", listId, t));
    |Filter(ts, (t: Task) => InProgressIn(listId, t))|
  }

  /** A task counts exactly when it is of this list and in progress:
      adding any other task leaves the count alone, adding an in-progress
      task of the list raises it by one. */
  lemma CountsExactlyInProgressOfList(ts: seq<Task>, listId: ObjectId, t: Task)
    ensures FetchNumberOfTasks(ts + [t], listId)
            == FetchNumberOfTasks(ts, listId) + (if InProgressIn(listId, t) then 1 else 0)
  {
    FilterAppend(ts, [t], (u: Task) => InProgressIn(listId, u));
    assert [t][1..] == [];
  }

  /** `iconBackgroundColor`: the if/else chain over the eight names, gray
      for a missing or unknown string. */
  function IconBackgroundColor(colorString: Option<string>): (c: Color)
    ensures colorString.Some? && IsPaletteName(colorString.value) ==> Name(c) == colorString.value
    ensures !(colorString.Some? && IsPaletteName(colorString.value)) ==> c == Gray
  {
    if colorString.Some? then
      var s := colorString.value;
      if s == "red" then Red
      else if s == "orange" then Orange
      else if s == "yellow" then Yellow
      else if s == "green" then Green
      else if s == "blue" then Blue
      else if s == "purple" then Purple
      else if s == "gray" then Gray
      else if s == "pink" then Pink
      else Gray
    else Gray
  }

  /** The row's icon and the statistics screen colour every list alike. */
  lemma AgreesWithStatisticView(colorString: Option<string>)
    ensures IconBackgroundColor(colorString) == StatisticView.ColorFromString(colorString)
  {
    if colorString.Some? && IsPaletteName(colorString.value) {
      NameInjective(IconBackgroundColor(colorString), StatisticView.ColorFromString(colorString));
    }
  }
}

/** The first version's task row: a checkbox bound to the status string. */
module TaskRow {
  import opened Wrappers
  import opened Store

  /** The binding's getter: on exactly when the status is "Completed". */
  predicate IsCompleted(t: Task) {
    t.status == Some("Completed")
  }

  /** The task after the binding's setter writes `newValue`. */
  function WithCompleted(t: Task, newValue: bool): (r: Task)
    ensures IsCompleted(r) == newValue
    ensures r.status == Some(if newValue then "Completed" else "In Progress")
    ensures r.(status := t.status) == t
  {
    t.(status := Some(if newValue then "Completed" else "In Progress"))
  }

  /** Writing back what the checkbox shows keeps a task whose status is
      one of the two strings, and turns any other status (or none) into
      "In Progress". */
  lemma SetWhatIsShown(t: Task)
    ensures t.status == Some("Completed") || t.status == Some("In Progress") ==> WithCompleted(t, IsCompleted(t)) == t
    ensures !(t.status == Some("Completed") || t.status == Some("In Progress")) ==>
              WithCompleted(t, IsCompleted(t)).status == Some("In Progress")
  {
  }

  /** Toggling the row of the task at position `k`, then saving. */
  method SetCompleted(store: Store, k: nat, newValue: bool)
    requires store.Valid() && k < |store.tasks|
    modifies store
    ensures store.Valid()
    ensures store.lists == old(store.lists)
    ensures store.tasks == old(store.tasks)[k := WithCompleted(old(store.tasks[k]), newValue)]
  {
    var task := store.tasks[k];
    store.SetTask(k, task.(status := Some(if newValue then "Completed" else "In Progress")));
  }
}

/** The second version's task row: a checkbox bound to the task's status. */
module TaskRowV2 {
  import opened TaskViewV2
  import opened TaskViewModelV2

  /** The binding's getter: on exactly for a completed task. */
  predicate IsOn(t: TaskModel) {
    t.status == Completed
  }

  /** The task after the binding's setter writes `newValue`. */
  function WithOn(t: TaskModel, newValue: bool): (r: TaskModel)
    ensures IsOn(r) == newValue
    ensures r.status == (if newValue then Completed else InProgress)
    ensures r.id == t.id && r.name == t.name && r.description == t.description
    ensures r.dueDate == t.dueDate && r.time == t.time
  {
    t.(status := if newValue then Completed else InProgress)
  }

  /** Writing back what the checkbox shows changes nothing. */
  lemma SetWhatIsShown(t: TaskModel)
    ensures WithOn(t, IsOn(t)) == t
  {
  }

  /** The last write wins. */
  lemma LastWriteWins(t: TaskModel, a: bool, b: bool)
    ensures WithOn(WithOn(t, a), b) == WithOn(t, b)
  {
  }

  /** Toggling the row at `index` of the task list through `$tasks[index]`. */
  method SetOn(vm: TaskViewModel, index: nat, newValue: bool)
    requires index < |vm.tasks|
    modifies vm
    ensures vm.tasks == old(vm.tasks)[index := WithOn(old(vm.tasks[index]), newValue)]
    ensures old(vm.Valid()) ==> vm.Valid()
  {
    vm.tasks := vm.tasks[index := vm.tasks[index].(status := if newValue then Completed else InProgress)];
    assert forall k | 0 <= k < |vm.tasks| :: vm.tasks[k].id == old(vm.tasks[k].id);
  }
}

/** The first version's edit-task form: the drafts it opens with, and
    Save, which writes five attributes back into the task. */
module TaskSettingsView {
  import opened Wrappers
  import opened Calendar
  import opened TaskPriority
  import opened Store

  datatype Draft = Draft(taskName: string, description: string, selectDate: Moment, selectTime: Moment,
                         selectedPriority: Priority, selectedAlertOption: string)

  /** `init(task:)`. Missing text becomes "", missing dates become `now`
      (standing for `Date()`), and a missing or unrecognised priority
      becomes Medium; the alert picker starts at "None". */
  function InitDraft(t: Task, now: Moment): (d: Draft)
    ensures d.taskName == t.title.GetOr("") && d.description == t.taskDescription.GetOr("")
    ensures d.selectDate == t.dueDate.GetOr(now) && d.selectTime == t.dueTime.GetOr(now)
    ensures t.priority.Some? && FromRaw(t.priority.value).Some? ==> RawValue(d.selectedPriority) == t.priority.value
    ensures !(t.priority.Some? && FromRaw(t.priority.value).Some?) ==> d.selectedPriority == Medium
    ensures d.selectedAlertOption == "None"
  {
    Draft(t.title.GetOr(""), t.taskDescription.GetOr(""), t.dueDate.GetOr(now), t.dueTime.GetOr(now),
          FromRaw(t.priority.GetOr("Medium")).GetOr(Medium), "None")
  }

  /** The task after Save: title, description, due date, due time and
      priority come from the drafts; nothing else changes, and the alert
      picker's choice is not stored. */
  function Applied(t: Task, d: Draft): (r: Task)
    ensures r.title == Some(d.taskName) && r.taskDescription == Some(d.description)
    ensures r.dueDate == Some(d.selectDate) && r.dueTime == Some(d.selectTime)
    ensures r.priority == Some(RawValue(d.selectedPriority))
    ensures r.id == t.id && r.status == t.status && r.taskList == t.taskList
    ensures r.alertOption == t.alertOption && r.dateCreated == t.dateCreated
  {
    t.(title := Some(d.taskName), taskDescription := Some(d.description), dueDate := Some(d.selectDate),
       dueTime := Some(d.selectTime), priority := Some(RawValue(d.selectedPriority)))
  }

  /** The Save button, on the edited task at position `k`. There is no
      guard: an empty title is saved as it is. */
  method Save(store: Store, k: nat, d: Draft)
    requires store.Valid() && k < |store.tasks|
    modifies store
    ensures store.Valid()
    ensures store.lists == old(store.lists)
    ensures store.tasks == old(store.tasks)[k := Applied(old(store.tasks[k]), d)]
  {
    store.SetTask(k, store.tasks[k].(title := Some(d.taskName)));
    store.SetTask(k, store.tasks[k].(taskDescription := Some(d.description)));
    store.SetTask(k, store.tasks[k].(dueDate := Some(d.selectDate)));
    store.SetTask(k, store.tasks[k].(dueTime := Some(d.selectTime)));
    store.SetTask(k, store.tasks[k].(priority := Some(RawValue(d.selectedPriority))));
  }

  /** Opening the form and saving at once keeps every attribute that was
      set, except that an unrecognised priority becomes "Medium"; unset
      text becomes "", unset dates become `now`, and an unset priority
      "Medium". */
  lemma SaveWithoutEditsKeepsTask(t: Task, now: Moment)
    ensures var r := Applied(t, InitDraft(t, now));
            && (t.title.Some? ==> r.title == t.title)
            && (t.taskDescription.Some? ==> r.taskDescription == t.taskDescription)
            && (t.dueDate.Some? ==> r.dueDate == t.dueDate)
            && (t.dueTime.Some? ==> r.dueTime == t.dueTime)
            && (t.priority.Some? && FromRaw(t.priority.value).Some? ==> r.priority == t.priority)
            && (t.priority.Some? && FromRaw(t.priority.value).None? ==> r.priority == Some("Medium"))
            && (t.title.None? ==> r.title == Some(""))
            && (t.dueDate.None? ==> r.dueDate == Some(now))
            && (t.priority.None? ==> r.priority == Some("Medium"))
            && r.status == t.status && r.taskList == t.taskList && r.alertOption == t.alertOption
  {
  }

  /** Whatever alert option is picked, Save stores the same task. */
  lemma AlertChoiceIsIgnored(t: Task, d: Draft, option: string)
    ensures Applied(t, d.(selectedAlertOption := option)) == Applied(t, d)
  {
  }
}

/** The first version's add-task form: the completeness check that
    enables Save, and the new task Save inserts into the selected list. */
module AddTaskView {
  import opened Wrappers
  import opened Calendar
  import opened TaskPriority
  import opened Store
  import TaskView
  import MyListsView

  /** The form's fields. The date and time pickers hold full moments. */
  datatype Form = Form(taskName: string, description: string, selectDate: Moment, selectTime: Moment,
                       selectedPriority: Priority)

  /** The form as it opens: empty text, both pickers at `now`, Medium. */
  function InitialForm(now: Moment): (f: Form)
    ensures !IsFormComplete(f)
  {
    Form("", "", now, now, Medium)
  }

  /** `isFormComplete`: Save is enabled exactly when the title is not
      empty; nothing else is checked. */
  predicate IsFormComplete(f: Form) {
    f.taskName != ""
  }

  /** `combinedDateTime`: the picked day at the picked clock time, to
      the minute. `addTask()` itself stores the two pickers unjoined. */
  function CombinedDateTime(f: Form): Moment {
    JoinDateTime(f.selectDate, f.selectTime)
  }

  /** Two forms give the same combined moment exactly when their dates
      fall on the same day and their times agree to the minute; the
      seconds are always zero and, for a valid clock time, the moment lies
      within the picked day. */
  lemma CombinedDateTimeJoinsPickers(f: Form, g: Form)
    ensures CombinedDateTime(f) == CombinedDateTime(g)
        <==> f.selectDate.day == g.selectDate.day && f.selectTime.hour == g.selectTime.hour
             && f.selectTime.minute == g.selectTime.minute
    ensures CombinedDateTime(f).second == 0
    ensures ValidClock(f.selectTime) ==>
              f.selectDate.day * SecondsPerDay <= Instant(CombinedDateTime(f)) < (f.selectDate.day + 1) * SecondsPerDay
  {
    JoinDependsOnDayHourMinute(f.selectDate, f.selectTime, g.selectDate, g.selectTime);
  }

  /** The record `addTask()` builds: the form's fields copied, the raw
      priority, the creation instant, status "In Progress", the selected
      list, and no alert option. */
  function NewTask(f: Form, listId: ObjectId, now: int, newId: ObjectId): Task {
    Task(newId, Some(f.taskName), Some(f.description), Some(f.selectDate), Some(f.selectTime),
         Some(RawValue(f.selectedPriority)), Some("In Progress"), None, Some(now), Some(listId))
  }

  /** `addTask()`: a new object in the context, then its attributes
      assigned one by one. `now` stands for `Date()` and `newId` for the
      new object's identity. */
  method AddTask(store: Store, f: Form, listId: ObjectId, now: int, newId: ObjectId)
    requires store.Valid() && HasList(store.lists, listId)
    requires forall u | u in store.tasks :: u.id != newId
    modifies store
    ensures store.Valid()
    ensures store.lists == old(store.lists)
    ensures store.tasks == old(store.tasks) + [NewTask(f, listId, now, newId)]
  {
    var newTask := Task(newId, None, None, None, None, None, None, None, None, None);
    newTask := newTask.(title := Some(f.taskName));
    newTask := newTask.(dueDate := Some(f.selectDate));
    newTask := newTask.(dueTime := Some(f.selectTime));
    newTask := newTask.(priority := Some(RawValue(f.selectedPriority)));
    newTask := newTask.(taskDescription := Some(f.description));
    newTask := newTask.(dateCreated := Some(now));
    newTask := newTask.(status := Some("In Progress"));
    newTask := newTask.(taskList := Some(listId));
    store.InsertTask(newTask);
  }

  /** The Save button: disabled for an incomplete form, otherwise it adds
      the task and dismisses the form. */
  method Save(store: Store, f: Form, listId: ObjectId, now: int, newId: ObjectId) returns (saved: bool)
    requires store.Valid() && HasList(store.lists, listId)
    requires forall u | u in store.tasks :: u.id != newId
    modifies store
    ensures store.Valid()
    ensures saved <==> IsFormComplete(f)
    ensures store.lists == old(store.lists)
    ensures saved ==> store.tasks == old(store.tasks) + [NewTask(f, listId, now, newId)]
    ensures !saved ==> store.tasks == old(store.tasks)
  {
    saved := IsFormComplete(f);
    if saved {
      AddTask(store, f, listId, now, newId);
    }
  }

  /** The new task raises its list's in-progress count by one, and the
      other lists' counts not at all. */
  lemma NewTaskCountedInProgress(ts: seq<Task>, f: Form, listId: ObjectId, other: ObjectId, now: int, newId: ObjectId)
    requires other != listId
    ensures MyListsView.FetchNumberOfTasks(ts + [NewTask(f, listId, now, newId)], listId)
            == MyListsView.FetchNumberOfTasks(ts, listId) + 1
    ensures MyListsView.FetchNumberOfTasks(ts + [NewTask(f, listId, now, newId)], other)
            == MyListsView.FetchNumberOfTasks(ts, other)
  {
    MyListsView.CountsExactlyInProgressOfList(ts, listId, NewTask(f, listId, now, newId));
    MyListsView.CountsExactlyInProgressOfList(ts, other, NewTask(f, listId, now, newId));
  }

  /** The new task is among the rows its list's screen shows under the
      default status. */
  lemma NewTaskShownByDefault(ts: seq<Task>, f: Form, listId: ObjectId, now: int, newId: ObjectId)
    ensures var t := NewTask(f, listId, now, newId);
            t in TaskView.Visible(TaskView.FetchTasks(ts + [t], listId), TaskView.DefaultStatus)
  {
    var t := NewTask(f, listId, now, newId);
    assert t in ts + [t];
    assert TaskView.Shown(TaskView.DefaultStatus, t);
  }

  /** Adding a task sets no reminder: its alert option is empty whatever
      was picked. */
  lemma NewTaskHasNoAlert(f: Form, listId: ObjectId, now: int, newId: ObjectId)
    ensures NewTask(f, listId, now, newId).alertOption.None?
    ensures NewTask(f, listId, now, newId).status == Some("In Progress")
    ensures NewTask(f, listId, now, newId).taskList == Some(listId)
    ensures NewTask(f, listId, now, newId).dateCreated == Some(now)
  {
  }
}

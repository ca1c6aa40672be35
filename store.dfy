/** The first version's persistent store: the `TaskList` and `Task`
    entities of the `iScheduleModel` data model, held in memory, with the
    delete rules of their relationship (a list's deletion cascades to its
    tasks; a task's deletion only detaches it from its list). */
module Store {
  import opened Wrappers
  import opened Seqs
  import opened Calendar

  /** Stands for a managed object's identity. */
  type ObjectId = nat

  /** A `TaskList` record; every attribute is optional, as in Core Data. */
  datatype TaskList = TaskList(id: ObjectId, name: Option<string>, colorString: Option<string>,
                               iconName: Option<string>)

  /** A `Task` record. `taskList` is the to-one relationship, by the
      identity of the list. */
  datatype Task = Task(
    id: ObjectId,
    title: Option<string>,
    taskDescription: Option<string>,
    dueDate: Option<Moment>,
    dueTime: Option<Moment>,
    priority: Option<string>,
    status: Option<string>,
    alertOption: Option<string>,
    dateCreated: Option<int>,
    taskList: Option<ObjectId>)

  function ListKey(l: TaskList): ObjectId { l.id }

  function TaskKey(t: Task): ObjectId { t.id }

  predicate HasList(ls: seq<TaskList>, id: ObjectId) {
    exists l | l in ls :: l.id == id
  }

  /** Every task's list is in the store. */
  predicate LinksResolve(ls: seq<TaskList>, ts: seq<Task>) {
    forall t | t in ts :: t.taskList.Some? ==> HasList(ls, t.taskList.value)
  }

  /** The predicate `taskList == %@`. */
  predicate InList(listId: ObjectId, t: Task) {
    t.taskList == Some(listId)
  }

  /** The tasks of one list, in store order. */
  function TasksOf(ts: seq<Task>, listId: ObjectId): seq<Task> {
    Filter(ts, (t: Task) => InList(listId, t))
  }

  /** The lists left after deleting list `id`. */
  function ListsWithout(ls: seq<TaskList>, id: ObjectId): (r: seq<TaskList>)
    ensures forall l :: l in r <==> l in ls && l.id != id
    ensures !HasList(r, id)
  {
    Filter(ls, (l: TaskList) => l.id != id)
  }

  /** The tasks left after deleting list `id`: the cascade rule removes
      every task of that list and keeps the others. */
  function TasksWithoutList(ts: seq<Task>, id: ObjectId): (r: seq<Task>)
    ensures forall t :: t in r <==> t in ts && !InList(id, t)
  {
    Filter(ts, (t: Task) => !InList(id, t))
  }

  /** The tasks left after deleting task `id`. */
  function TasksWithout(ts: seq<Task>, id: ObjectId): (r: seq<Task>)
    ensures forall t :: t in r <==> t in ts && t.id != id
  {
    Filter(ts, (t: Task) => t.id != id)
  }

  /** Cascading a list's deletion keeps every remaining link resolvable. */
  lemma CascadeKeepsLinks(ls: seq<TaskList>, ts: seq<Task>, id: ObjectId)
    requires LinksResolve(ls, ts)
    ensures LinksResolve(ListsWithout(ls, id), TasksWithoutList(ts, id))
  {
    var ls', ts' := ListsWithout(ls, id), TasksWithoutList(ts, id);
    forall t | t in ts' && t.taskList.Some? ensures HasList(ls', t.taskList.value) {
      var l :| l in ls && l.id == t.taskList.value;
      assert l in ls';
    }
  }

  /** Without the cascade, deleting a list that still has tasks would
      leave those tasks pointing at nothing. */
  lemma CascadeIsNeeded(ls: seq<TaskList>, ts: seq<Task>, id: ObjectId, t: Task)
    requires t in ts && InList(id, t)
    ensures !LinksResolve(ListsWithout(ls, id), ts)
  {
  }

  ghost predicate Consistent(ls: seq<TaskList>, ts: seq<Task>) {
    DistinctBy(ls, ListKey) && DistinctBy(ts, TaskKey) && LinksResolve(ls, ts)
  }

  class Store {
    var lists: seq<TaskList>
    var tasks: seq<Task>

    /** Identities are unique and relationships point into the store. */
    ghost predicate Valid()
      reads this
    {
      Consistent(lists, tasks)
    }

    /** A store holding whatever consistent records were persisted. */
    constructor(lists: seq<TaskList>, tasks: seq<Task>)
      requires Consistent(lists, tasks)
      ensures this.lists == lists && this.tasks == tasks
      ensures Valid()
    {
      this.lists := lists;
      this.tasks := tasks;
    }

    /** A new object inserted into the context. */
    method InsertTask(t: Task)
      requires Valid()
      requires forall u | u in tasks :: u.id != t.id
      requires t.taskList.Some? ==> HasList(lists, t.taskList.value)
      modifies this
      ensures lists == old(lists) && tasks == old(tasks) + [t]
      ensures Valid()
    {
      DistinctByAppend(tasks, t, TaskKey);
      tasks := tasks + [t];
    }

    /** `viewContext.delete(list)`: the list goes, and so do its tasks. */
    method DeleteList(id: ObjectId)
      requires Valid()
      modifies this
      ensures lists == ListsWithout(old(lists), id)
      ensures tasks == TasksWithoutList(old(tasks), id)
      ensures Valid()
    {
      FilterDistinctBy(lists, (l: TaskList) => l.id != id, ListKey);
      FilterDistinctBy(tasks, (t: Task) => !InList(id, t), TaskKey);
      CascadeKeepsLinks(lists, tasks, id);
      lists := ListsWithout(lists, id);
      tasks := TasksWithoutList(tasks, id);
    }

    /** `viewContext.delete(task)`: the task goes; its list stays. */
    method DeleteTask(id: ObjectId)
      requires Valid()
      modifies this
      ensures lists == old(lists)
      ensures tasks == TasksWithout(old(tasks), id)
      ensures Valid()
    {
      FilterDistinctBy(tasks, (t: Task) => t.id != id, TaskKey);
      tasks := TasksWithout(tasks, id);
    }

    /** Assigning attributes of the task at position `k`; its identity
        stays, and its list, if any, is in the store. */
    method SetTask(k: nat, t: Task)
      requires Valid() && k < |tasks|
      requires t.id == tasks[k].id
      requires t.taskList.Some? ==> HasList(lists, t.taskList.value)
      modifies this
      ensures lists == old(lists) && tasks == old(tasks)[k := t]
      ensures Valid()
    {
      tasks := tasks[k := t];
      assert forall j | 0 <= j < |tasks| :: TaskKey(tasks[j]) == TaskKey(old(tasks)[j]);
      forall u | u in tasks && u.taskList.Some? ensures HasList(lists, u.taskList.value) {
        var j :| 0 <= j < |tasks| && tasks[j] == u;
        if j != k {
          assert u == old(tasks)[j];
        }
      }
    }

    /** Assigning attributes of the list at position `k`; its identity
        stays. */
    method SetList(k: nat, l: TaskList)
      requires Valid() && k < |lists|
      requires l.id == lists[k].id
      modifies this
      ensures lists == old(lists)[k := l] && tasks == old(tasks)
      ensures Valid()
    {
      ghost var before := lists;
      lists := lists[k := l];
      assert forall j | 0 <= j < |lists| :: ListKey(lists[j]) == ListKey(before[j]);
      forall t | t in tasks && t.taskList.Some? ensures HasList(lists, t.taskList.value) {
        var m :| m in before && m.id == t.taskList.value;
        var j :| 0 <= j < |before| && before[j] == m;
        assert lists[j].id == m.id;
      }
    }
  }
}

/**
  The task handlers: creation with the next-position rule, the merging
  update, deletion, reordering within a list, moving between lists, and
  assigning users. Adding tags from the task routes behaves exactly like
  `TaskTags.AddTagsToTask`.
 */
module Tasks {
  import opened Kanban
  import opened Sets
  import opened Positions
  import opened Links

  /** The ids of the tasks of list `list`. */
  function TasksOf(s: Store, list: Id): set<Id>
  {
    set t | t in s.tasks && s.tasks[t].list == list
  }

  /** The positions the tasks of list `list` occupy. */
  function TaskPositions(s: Store, list: Id): set<int>
  {
    set t | t in s.tasks && s.tasks[t].list == list :: s.tasks[t].position
  }

  /** The body of a task-creation request; `None` is an absent field. */
  datatype NewTask = NewTask(
    title: string,
    description: Option<string>,
    dueDate: Option<int>,
    priority: Option<Priority>,
    assignee: Option<Id>,
    position: Option<int>,
    tagIds: Option<seq<Id>>)

  /** Creating task `id` in list `listId`. The list must exist; without an
      explicit position the task goes after every task of the list; a
      non-empty tag list becomes the task's tags. */
  function CreateTask(s: Store, listId: Id, id: Id, body: NewTask): (r: Result<Store>)
    requires id !in s.tasks
    ensures r.Ok? <==> listId in s.lists
    ensures r.Err? ==> r.error == NotFound
    ensures r.Ok? ==> r.value.tasks.Keys == s.tasks.Keys + {id}
    ensures r.Ok? ==> forall t :: t in s.tasks ==> r.value.tasks[t] == s.tasks[t]
    ensures r.Ok? ==>
      var t := r.value.tasks[id];
      && t.list == listId
      && t.title == body.title
      && t.description == body.description
      && t.dueDate == body.dueDate
      && (body.priority.Some? ==> t.priority == body.priority.value)
      && (body.priority.None? ==> t.priority == DefaultPriority)
      && t.status == DefaultTaskStatus
      && t.assignee == body.assignee
    ensures r.Ok? && body.position.Some? ==> r.value.tasks[id].position == body.position.value
    ensures r.Ok? && body.position.None? ==> AfterAll(r.value.tasks[id].position, TaskPositions(s, listId))
    ensures r.Ok? && body.tagIds.Some? && |body.tagIds.value| > 0 ==>
      LinkedTo(r.value.taskTags, id) == Elems(body.tagIds.value)
    ensures r.Ok? && !(body.tagIds.Some? && |body.tagIds.value| > 0) ==>
      r.value.taskTags == s.taskTags
    ensures r.Ok? ==> forall t :: t != id ==> LinkedTo(r.value.taskTags, t) == LinkedTo(s.taskTags, t)
    ensures r.Ok? ==> r.value.(tasks := s.tasks, taskTags := s.taskTags) == s
  {
    if listId !in s.lists then
      Err(NotFound)
    else
      var position := if body.position.Some? then body.position.value else NextPosition(TaskPositions(s, listId));
      var task := Task(listId, body.title, body.description, body.dueDate,
                       Or(body.priority, DefaultPriority), DefaultTaskStatus, position, body.assignee);
      var links :=
        if body.tagIds.Some? && |body.tagIds.value| > 0
        then Replace(s.taskTags, id, Elems(body.tagIds.value))
        else s.taskTags;
      Ok(s.(tasks := s.tasks[id := task], taskTags := links))
  }

  /** A task appended without a position becomes the last of its list: the
      next task appended there goes right after it. */
  lemma CreateTaskAppendsLast(s: Store, listId: Id, id: Id, body: NewTask)
    requires id !in s.tasks
    requires listId in s.lists && body.position.None?
    ensures
      var s' := CreateTask(s, listId, id, body).value;
      && TaskPositions(s', listId) == TaskPositions(s, listId) + {s'.tasks[id].position}
      && NextPosition(TaskPositions(s', listId)) == s'.tasks[id].position + 1
  {
    var s' := CreateTask(s, listId, id, body).value;
    var p := s'.tasks[id].position;
    var before, after := TaskPositions(s, listId), TaskPositions(s', listId);
    forall q | q in after
      ensures q in before + {p}
    {
      var t :| t in s'.tasks && s'.tasks[t].list == listId && s'.tasks[t].position == q;
      if t != id {
        assert t in s.tasks;
      }
    }
    forall q | q in before
      ensures q in after
    {
      var t :| t in s.tasks && s.tasks[t].list == listId && s.tasks[t].position == q;
      assert s'.tasks[t] == s.tasks[t];
    }
    assert p in after;
    assert after == before + {p};
    assert AfterAll(p + 1, after);
    AfterAllUnique(NextPosition(after), p + 1, after);
  }

  /** Deleting a task just created without tags gives back the store. */
  lemma CreateThenDeleteTask(s: Store, listId: Id, id: Id, body: NewTask)
    requires id !in s.tasks
    requires CreateTask(s, listId, id, body).Ok? && body.tagIds.None?
    ensures DeleteTask(CreateTask(s, listId, id, body).value, id) == Ok(s)
  {
    var s' := CreateTask(s, listId, id, body).value;
    assert s'.tasks - {id} == s.tasks;
  }

  /** A request field that distinguishes "absent" from an explicit value
      (which may itself be `null`, i.e. `None`). */
  datatype Field<T> = Undefined | Defined(value: T)

  /** The body of a task-update request. */
  datatype TaskPatch = TaskPatch(
    title: Option<string>,
    description: Field<Option<string>>,
    dueDate: Option<int>,
    priority: Option<Priority>,
    assignee: Option<Id>,
    position: Option<int>,
    tagIds: Option<seq<Id>>,
    list: Option<Id>)

  /** The row an update writes: falsy title, due date, priority, assignee
      and list keep the old values; description and position are replaced
      whenever present; the status is never touched. */
  function MergeTask(prev: Task, patch: TaskPatch): (next: Task)
    ensures Truthy(patch.title) ==> next.title == patch.title.value
    ensures !Truthy(patch.title) ==> next.title == prev.title
    ensures patch.description.Defined? ==> next.description == patch.description.value
    ensures patch.description.Undefined? ==> next.description == prev.description
    ensures patch.dueDate.Some? ==> next.dueDate == patch.dueDate
    ensures patch.dueDate.None? ==> next.dueDate == prev.dueDate
    ensures patch.priority.Some? ==> next.priority == patch.priority.value
    ensures patch.priority.None? ==> next.priority == prev.priority
    ensures GivenId(patch.assignee) ==> next.assignee == patch.assignee
    ensures !GivenId(patch.assignee) ==> next.assignee == prev.assignee
    ensures patch.position.Some? ==> next.position == patch.position.value
    ensures patch.position.None? ==> next.position == prev.position
    ensures GivenId(patch.list) ==> next.list == patch.list.value
    ensures !GivenId(patch.list) ==> next.list == prev.list
    ensures next.status == prev.status
  {
    prev.(
      title := OrElse(patch.title, prev.title),
      description := if patch.description.Defined? then patch.description.value else prev.description,
      dueDate := if patch.dueDate.Some? then patch.dueDate else prev.dueDate,
      priority := Or(patch.priority, prev.priority),
      assignee := if GivenId(patch.assignee) then patch.assignee else prev.assignee,
      position := Or(patch.position, prev.position),
      list := if GivenId(patch.list) then patch.list.value else prev.list)
  }

  /** Updating task `id`: the task must exist, and a truthy list id other
      than the task's own must name an existing list; the row becomes the
      merge of the old row and the request, and a tag list replaces the
      task's tags. */
  function UpdateTask(s: Store, id: Id, patch: TaskPatch): (r: Result<Store>)
    ensures r.Ok? <==>
      && id in s.tasks
      && (GivenId(patch.list) && patch.list.value != s.tasks[id].list ==> patch.list.value in s.lists)
    ensures r.Err? ==> r.error == NotFound
    ensures r.Ok? ==> r.value.tasks == s.tasks[id := MergeTask(s.tasks[id], patch)]
    ensures r.Ok? && patch.tagIds.Some? ==> LinkedTo(r.value.taskTags, id) == Elems(patch.tagIds.value)
    ensures r.Ok? && patch.tagIds.None? ==> r.value.taskTags == s.taskTags
    ensures r.Ok? ==> forall t :: t != id ==> LinkedTo(r.value.taskTags, t) == LinkedTo(s.taskTags, t)
    ensures r.Ok? ==> r.value.(tasks := s.tasks, taskTags := s.taskTags) == s
  {
    if id !in s.tasks then
      Err(NotFound)
    else if GivenId(patch.list) && patch.list.value != s.tasks[id].list && patch.list.value !in s.lists then
      Err(NotFound)
    else
      var links := if patch.tagIds.Some? then Replace(s.taskTags, id, Elems(patch.tagIds.value)) else s.taskTags;
      Ok(s.(tasks := s.tasks[id := MergeTask(s.tasks[id], patch)], taskTags := links))
  }

  /** Repeating an update request changes nothing more. */
  lemma UpdateTaskIdempotent(s: Store, id: Id, patch: TaskPatch)
    requires UpdateTask(s, id, patch).Ok?
    ensures UpdateTask(UpdateTask(s, id, patch).value, id, patch) == UpdateTask(s, id, patch)
  {
    var s' := UpdateTask(s, id, patch).value;
    assert MergeTask(s'.tasks[id], patch) == s'.tasks[id];
    assert s'.tasks[id := s'.tasks[id]] == s'.tasks;
    if patch.tagIds.Some? {
      ReplaceIdempotent(s.taskTags, id, Elems(patch.tagIds.value));
    }
  }

  /** Deleting task `id`: only that row goes; the other tasks, their
      positions included, stay as they were. */
  function DeleteTask(s: Store, id: Id): (r: Result<Store>)
    ensures r.Ok? <==> id in s.tasks
    ensures r.Err? ==> r.error == NotFound
    ensures r.Ok? ==> r.value.tasks.Keys == s.tasks.Keys - {id}
    ensures r.Ok? ==> forall t :: t in r.value.tasks ==> r.value.tasks[t] == s.tasks[t]
    ensures r.Ok? ==> r.value.(tasks := s.tasks) == s
  {
    if id !in s.tasks then Err(NotFound) else Ok(s.(tasks := s.tasks - {id}))
  }

  /** Reordering the tasks of list `listId`: the count check accepts the ids
      exactly when they are distinct tasks of the list, and then the task
      named at index `i` gets position `i`. Tasks not named are untouched. */
  function ReorderTasks(s: Store, listId: Id, ids: seq<Id>): (r: Result<Store>)
    ensures r.Ok? <==> ValidOrder(ids, TasksOf(s, listId))
    ensures r.Err? ==> r.error == BadRequest
    ensures r.Ok? ==> r.value.tasks.Keys == s.tasks.Keys
    ensures r.Ok? ==> forall i :: 0 <= i < |ids| ==> r.value.tasks[ids[i]] == s.tasks[ids[i]].(position := i)
    ensures r.Ok? ==> forall t :: t in s.tasks && t !in ids ==> r.value.tasks[t] == s.tasks[t]
    ensures r.Ok? ==> r.value.(tasks := s.tasks) == s
  {
    MatchCountExact(ids, TasksOf(s, listId));
    if MatchCount(ids, TasksOf(s, listId)) != |ids| then
      Err(BadRequest)
    else
      var tasks := map t | t in s.tasks :: if t in ids then s.tasks[t].(position := IndexOf(ids, t)) else s.tasks[t];
      assert forall i :: 0 <= i < |ids| ==> IndexOf(ids, ids[i]) == i by {
        forall i | 0 <= i < |ids| {
          IndexOfDistinct(ids, i);
        }
      }
      Ok(s.(tasks := tasks))
  }

  /** Reordering with every task of the list named leaves the list's
      positions dense: exactly 0 .. n-1. */
  lemma ReorderTasksDense(s: Store, listId: Id, ids: seq<Id>)
    requires ReorderTasks(s, listId, ids).Ok?
    requires Elems(ids) == TasksOf(s, listId)
    ensures forall q :: q in TaskPositions(ReorderTasks(s, listId, ids).value, listId) <==> 0 <= q < |ids|
  {
    var s' := ReorderTasks(s, listId, ids).value;
    forall q | q in TaskPositions(s', listId)
      ensures 0 <= q < |ids|
    {
      var t :| t in s'.tasks && s'.tasks[t].list == listId && s'.tasks[t].position == q;
      assert t in TasksOf(s, listId);
      assert t in Elems(ids);
      var i :| 0 <= i < |ids| && ids[i] == t;
    }
    forall i | 0 <= i < |ids|
      ensures i in TaskPositions(s', listId)
    {
      assert s'.tasks[ids[i]].list == listId;
    }
  }

  /** Reordering is idempotent: repeating the same request changes nothing. */
  lemma ReorderTasksIdempotent(s: Store, listId: Id, ids: seq<Id>)
    requires ReorderTasks(s, listId, ids).Ok?
    ensures ReorderTasks(ReorderTasks(s, listId, ids).value, listId, ids) == ReorderTasks(s, listId, ids)
  {
    var s' := ReorderTasks(s, listId, ids).value;
    assert TasksOf(s', listId) == TasksOf(s, listId);
    var s'' := ReorderTasks(s', listId, ids).value;
    assert s''.tasks == s'.tasks;
  }

  /** Moving task `id` to list `listId`. Both must exist; only the task's
      list and position change; without a position the task goes after
      every task of the destination. The source list is not renumbered. */
  function MoveTask(s: Store, id: Id, listId: Id, position: Option<int>): (r: Result<Store>)
    ensures r.Ok? <==> id in s.tasks && listId in s.lists
    ensures r.Err? ==> r.error == NotFound
    ensures r.Ok? ==> r.value.tasks.Keys == s.tasks.Keys
    ensures r.Ok? ==> forall t :: t in s.tasks && t != id ==> r.value.tasks[t] == s.tasks[t]
    ensures r.Ok? ==> r.value.tasks[id] == s.tasks[id].(list := listId, position := r.value.tasks[id].position)
    ensures r.Ok? && position.Some? ==> r.value.tasks[id].position == position.value
    ensures r.Ok? && position.None? ==> AfterAll(r.value.tasks[id].position, TaskPositions(s, listId))
    ensures r.Ok? ==> r.value.(tasks := s.tasks) == s
  {
    if id !in s.tasks || listId !in s.lists then
      Err(NotFound)
    else
      var p := if position.Some? then position.value else NextPosition(TaskPositions(s, listId));
      Ok(s.(tasks := s.tasks[id := s.tasks[id].(list := listId, position := p)]))
  }

  /** Moving a task back to where it was restores the store. */
  lemma MoveTaskUndo(s: Store, id: Id, listId: Id, position: Option<int>)
    requires MoveTask(s, id, listId, position).Ok?
    requires s.tasks[id].list in s.lists
    ensures MoveTask(MoveTask(s, id, listId, position).value, id, s.tasks[id].list, Some(s.tasks[id].position)) == Ok(s)
  {
    var s' := MoveTask(s, id, listId, position).value;
    assert s'.tasks[id := s.tasks[id]] == s.tasks;
  }

  /** Assigning users to task `id`: every user id must exist and be named
      once; the assignees then become exactly those users. */
  function AssignUsers(s: Store, id: Id, userIds: seq<Id>): (r: Result<Store>)
    ensures id !in s.tasks ==> r == Err(NotFound)
    ensures r.Ok? <==> id in s.tasks && ValidIds(userIds, s.users.Keys)
    ensures id in s.tasks && r.Err? ==> r.error == BadRequest
    ensures r.Ok? ==> LinkedTo(r.value.assignments, id) == Elems(userIds)
    ensures r.Ok? ==> forall t :: t != id ==> LinkedTo(r.value.assignments, t) == LinkedTo(s.assignments, t)
    ensures r.Ok? ==> r.value.(assignments := s.assignments) == s
  {
    MatchCountExact(userIds, s.users.Keys);
    if id !in s.tasks then
      Err(NotFound)
    else if MatchCount(userIds, s.users.Keys) != |userIds| then
      Err(BadRequest)
    else
      Ok(s.(assignments := Replace(s.assignments, id, Elems(userIds))))
  }
}

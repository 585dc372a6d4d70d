/**
  The task-tag handlers: adding and removing tags on a task after checking
  that the task and every named tag exist, and the position-ordered list of
  the tasks that carry a tag. A tag counts as existing whether or not it is
  active.
 */
module TaskTags {
  import opened Kanban
  import opened Sets
  import opened Positions
  import opened Ordering
  import opened Links

  /** The checks both edits share: the task must exist (404), and the tag
      ids must be distinct existing tags (400). */
  function CheckTags(s: Store, task: Id, tagIds: seq<Id>): (r: Option<ErrorKind>)
    ensures task !in s.tasks ==> r == Some(NotFound)
    ensures r.None? <==> task in s.tasks && ValidIds(tagIds, s.tags.Keys)
    ensures task in s.tasks && r.Some? ==> r == Some(BadRequest)
  {
    MatchCountExact(tagIds, s.tags.Keys);
    if task !in s.tasks then Some(NotFound)
    else if MatchCount(tagIds, s.tags.Keys) != |tagIds| then Some(BadRequest)
    else None
  }

  /** addTagsToTask (and the task handler addTags): the task's tags become
      the old ones together with `tagIds`. */
  function AddTagsToTask(s: Store, task: Id, tagIds: seq<Id>): (r: Result<Store>)
    ensures r.Ok? <==> task in s.tasks && ValidIds(tagIds, s.tags.Keys)
    ensures r.Err? ==> r.error == (if task !in s.tasks then NotFound else BadRequest)
    ensures r.Ok? ==> LinkedTo(r.value.taskTags, task) == LinkedTo(s.taskTags, task) + Elems(tagIds)
    ensures r.Ok? ==> forall t :: t != task ==> LinkedTo(r.value.taskTags, t) == LinkedTo(s.taskTags, t)
    ensures r.Ok? ==> r.value.(taskTags := s.taskTags) == s
  {
    match CheckTags(s, task, tagIds)
    case Some(e) => Err(e)
    case None => Ok(s.(taskTags := Add(s.taskTags, task, Elems(tagIds))))
  }

  /** removeTagsFromTask: the task's tags lose `tagIds`. */
  function RemoveTagsFromTask(s: Store, task: Id, tagIds: seq<Id>): (r: Result<Store>)
    ensures r.Ok? <==> task in s.tasks && ValidIds(tagIds, s.tags.Keys)
    ensures r.Err? ==> r.error == (if task !in s.tasks then NotFound else BadRequest)
    ensures r.Ok? ==> LinkedTo(r.value.taskTags, task) == LinkedTo(s.taskTags, task) - Elems(tagIds)
    ensures r.Ok? ==> forall t :: t != task ==> LinkedTo(r.value.taskTags, t) == LinkedTo(s.taskTags, t)
    ensures r.Ok? ==> r.value.(taskTags := s.taskTags) == s
  {
    match CheckTags(s, task, tagIds)
    case Some(e) => Err(e)
    case None => Ok(s.(taskTags := Remove(s.taskTags, task, Elems(tagIds))))
  }

  /** Adding the same tags twice gives the tag sets of adding them once. */
  lemma AddTagsIdempotent(s: Store, task: Id, tagIds: seq<Id>)
    requires AddTagsToTask(s, task, tagIds).Ok?
    ensures var s' := AddTagsToTask(s, task, tagIds).value;
      && AddTagsToTask(s', task, tagIds).Ok?
      && forall t :: LinkedTo(AddTagsToTask(s', task, tagIds).value.taskTags, t) == LinkedTo(s'.taskTags, t)
  {
  }

  /** Removing the tags just added leaves the task with its old tags minus
      those ids, and every other task as it was. */
  lemma RemoveAfterAdd(s: Store, task: Id, tagIds: seq<Id>)
    requires AddTagsToTask(s, task, tagIds).Ok?
    ensures var s' := AddTagsToTask(s, task, tagIds).value;
      && RemoveTagsFromTask(s', task, tagIds).Ok?
      && LinkedTo(RemoveTagsFromTask(s', task, tagIds).value.taskTags, task) == LinkedTo(s.taskTags, task) - Elems(tagIds)
      && forall t :: t != task ==> LinkedTo(RemoveTagsFromTask(s', task, tagIds).value.taskTags, t) == LinkedTo(s.taskTags, t)
  {
  }

  /** The existing tasks that carry tag `tag`. */
  function TaskIdsOfTag(s: Store, tag: Id): set<Id>
  {
    set t | t in s.tasks && (t, tag) in s.taskTags
  }

  /** getTasksByTag: an unknown tag is NotFound; otherwise the tasks that
      carry it, each once, by ascending position. */
  method TasksByTag(s: Store, tag: Id) returns (r: Result<seq<Id>>)
    ensures r.Err? <==> tag !in s.tags
    ensures r.Err? ==> r.error == NotFound
    ensures r.Ok? ==> Distinct(r.value) && Elems(r.value) == TaskIdsOfTag(s, tag)
    ensures r.Ok? ==> forall i :: 0 <= i < |r.value| ==> r.value[i] in s.tasks && tag in LinkedTo(s.taskTags, r.value[i])
    ensures r.Ok? ==> forall i, j :: 0 <= i < j < |r.value| ==> s.tasks[r.value[i]].position <= s.tasks[r.value[j]].position
  {
    if tag !in s.tags {
      return Err(NotFound);
    }
    var key := map t | t in s.tasks :: s.tasks[t].position;
    IntLeIsTotalPreorder();
    var sorted := SortBy(TaskIdsOfTag(s, tag), key, IntLe);
    forall i | 0 <= i < |sorted|
      ensures sorted[i] in s.tasks && tag in LinkedTo(s.taskTags, sorted[i])
    {
      assert sorted[i] in Elems(sorted);
      assert (sorted[i], tag) in s.taskTags;
    }
    r := Ok(sorted);
  }
}

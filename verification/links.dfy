/**
  The many-to-many link tables (task_tags, task_assignments) as sets of
  (task, other) pairs, and the three edits the ORM's association helpers
  make to them: `setX` replaces a task's links, `addX` adds to them and
  `removeX` takes some away.
 */
module Links {
  import opened Kanban

  /** The ids a link table associates with `task`. */
  function LinkedTo(links: set<(Id, Id)>, task: Id): set<Id>
  {
    set p | p in links && p.0 == task :: p.1
  }

  /** `task.setX(ids)`: the task's links become exactly `ids`. */
  function Replace(links: set<(Id, Id)>, task: Id, ids: set<Id>): (r: set<(Id, Id)>)
    ensures LinkedTo(r, task) == ids
    ensures forall t :: t != task ==> LinkedTo(r, t) == LinkedTo(links, t)
  {
    var r := (set p | p in links && p.0 != task) + (set x | x in ids :: (task, x));
    assert forall x :: x in ids ==> (task, x) in r;
    r
  }

  /** `task.addX(ids)`: the ids are linked in addition to the current ones. */
  function Add(links: set<(Id, Id)>, task: Id, ids: set<Id>): (r: set<(Id, Id)>)
    ensures LinkedTo(r, task) == LinkedTo(links, task) + ids
    ensures forall t :: t != task ==> LinkedTo(r, t) == LinkedTo(links, t)
  {
    var r := links + (set x | x in ids :: (task, x));
    assert forall x :: x in ids ==> (task, x) in r;
    r
  }

  /** `task.removeX(ids)`: the links from the task to the ids disappear. */
  function Remove(links: set<(Id, Id)>, task: Id, ids: set<Id>): (r: set<(Id, Id)>)
    ensures LinkedTo(r, task) == LinkedTo(links, task) - ids
    ensures forall t :: t != task ==> LinkedTo(r, t) == LinkedTo(links, t)
  {
    set p | p in links && !(p.0 == task && p.1 in ids)
  }

  /** Setting the same links twice is setting them once. */
  lemma ReplaceIdempotent(links: set<(Id, Id)>, task: Id, ids: set<Id>)
    ensures Replace(Replace(links, task, ids), task, ids) == Replace(links, task, ids)
  {
    var r := Replace(links, task, ids);
    forall p | p in Replace(r, task, ids)
      ensures p in r
    {
      if p.0 == task {
        assert p.1 in LinkedTo(Replace(r, task, ids), task);
        assert p.1 in LinkedTo(r, task);
      }
    }
    forall p | p in r
      ensures p in Replace(r, task, ids)
    {
      if p.0 == task {
        assert p.1 in LinkedTo(r, task);
        assert p.1 in LinkedTo(Replace(r, task, ids), task);
      }
    }
  }
}

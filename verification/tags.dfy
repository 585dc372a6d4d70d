/**
  The tag handlers: names are unique among active tags, deletion only
  clears the active flag, and the listing shows active tags by name.
 */
module Tags {
  import opened Kanban
  import opened Sets
  import opened Ordering

  /** Some active tag is called `name`. */
  predicate ActiveNameTaken(s: Store, name: string)
  {
    exists t :: t in s.tags && s.tags[t].isActive && s.tags[t].name == name
  }

  /** No two active tags share a name. */
  ghost predicate ActiveNamesUnique(s: Store)
  {
    forall t, u :: t in s.tags && u in s.tags && t != u && s.tags[t].isActive && s.tags[u].isActive ==>
      s.tags[t].name != s.tags[u].name
  }

  /** The ids of the active tags. */
  function ActiveTags(s: Store): set<Id>
  {
    set t | t in s.tags && s.tags[t].isActive
  }

  /** getAllTags: every active tag once, by ascending name. */
  method AllTags(s: Store) returns (r: seq<Id>)
    ensures Distinct(r) && Elems(r) == ActiveTags(s)
    ensures forall i :: 0 <= i < |r| ==> r[i] in s.tags && s.tags[r[i]].isActive
    ensures forall i, j :: 0 <= i < j < |r| ==> NameLe(s.tags[r[i]].name, s.tags[r[j]].name)
  {
    var key := map t | t in s.tags :: s.tags[t].name;
    NameLeIsTotalPreorder();
    r := SortBy(ActiveTags(s), key, NameLe);
    assert forall i :: 0 <= i < |r| ==> r[i] in Elems(r);
  }

  /** Creating tag `id`: refused when an active tag already has the name;
      otherwise the new tag is active. */
  function CreateTag(s: Store, id: Id, name: string, color: string): (r: Result<Store>)
    requires id !in s.tags
    ensures r.Ok? <==> !ActiveNameTaken(s, name)
    ensures r.Err? ==> r.error == BadRequest
    ensures r.Ok? ==> r.value.tags == s.tags[id := Tag(name, color, true)]
    ensures r.Ok? ==> r.value.(tags := s.tags) == s
  {
    if ActiveNameTaken(s, name) then Err(BadRequest)
    else Ok(s.(tags := s.tags[id := Tag(name, color, true)]))
  }

  /** Updating tag `id` to `name` and `color`: the tag must exist, and a
      changed name must not be held by an active tag. The active flag stays. */
  function UpdateTag(s: Store, id: Id, name: string, color: string): (r: Result<Store>)
    ensures id !in s.tags ==> r == Err(NotFound)
    ensures r.Ok? <==> id in s.tags && (name != s.tags[id].name ==> !ActiveNameTaken(s, name))
    ensures r.Err? && id in s.tags ==> r.error == BadRequest
    ensures r.Ok? ==> r.value.tags == s.tags[id := Tag(name, color, s.tags[id].isActive)]
    ensures r.Ok? ==> r.value.(tags := s.tags) == s
  {
    if id !in s.tags then Err(NotFound)
    else if name != s.tags[id].name && ActiveNameTaken(s, name) then Err(BadRequest)
    else Ok(s.(tags := s.tags[id := s.tags[id].(name := name, color := color)]))
  }

  /** Repeating an update request changes nothing more: the second time the
      name is the tag's own, so it is not checked again. */
  lemma UpdateTagIdempotent(s: Store, id: Id, name: string, color: string)
    requires UpdateTag(s, id, name, color).Ok?
    ensures UpdateTag(UpdateTag(s, id, name, color).value, id, name, color) == UpdateTag(s, id, name, color)
  {
    var s' := UpdateTag(s, id, name, color).value;
    assert s'.tags[id := s'.tags[id]] == s'.tags;
  }

  /** Deleting tag `id` keeps the row and clears its active flag; the task
      links stay. */
  function DeleteTag(s: Store, id: Id): (r: Result<Store>)
    ensures r.Ok? <==> id in s.tags
    ensures r.Err? ==> r.error == NotFound
    ensures r.Ok? ==> r.value.tags.Keys == s.tags.Keys
    ensures r.Ok? ==> !r.value.tags[id].isActive
    ensures r.Ok? ==> r.value.tags[id].name == s.tags[id].name && r.value.tags[id].color == s.tags[id].color
    ensures r.Ok? ==> forall t :: t in s.tags && t != id ==> r.value.tags[t] == s.tags[t]
    ensures r.Ok? ==> ActiveTags(r.value) == ActiveTags(s) - {id}
    ensures r.Ok? ==> r.value.(tags := s.tags) == s
  {
    if id !in s.tags then Err(NotFound)
    else
      var r := s.(tags := s.tags[id := s.tags[id].(isActive := false)]);
      assert ActiveTags(r) == ActiveTags(s) - {id};
      Ok(r)
  }

  /** Deleting a tag a second time changes nothing. */
  lemma DeleteTagIdempotent(s: Store, id: Id)
    requires id in s.tags
    ensures DeleteTag(DeleteTag(s, id).value, id) == DeleteTag(s, id)
  {
    var s' := DeleteTag(s, id).value;
    assert s'.tags[id := s'.tags[id].(isActive := false)] == s'.tags;
  }

  /** Creating, renaming and deleting tags keep active names unique. */
  lemma TagHandlersKeepNamesUnique(s: Store, id: Id, name: string, color: string)
    requires ActiveNamesUnique(s)
    ensures id !in s.tags && CreateTag(s, id, name, color).Ok? ==> ActiveNamesUnique(CreateTag(s, id, name, color).value)
    ensures UpdateTag(s, id, name, color).Ok? ==> ActiveNamesUnique(UpdateTag(s, id, name, color).value)
    ensures DeleteTag(s, id).Ok? ==> ActiveNamesUnique(DeleteTag(s, id).value)
  {
    if id !in s.tags && CreateTag(s, id, name, color).Ok? {
      var s' := CreateTag(s, id, name, color).value;
      forall t, u | t in s'.tags && u in s'.tags && t != u && s'.tags[t].isActive && s'.tags[u].isActive
        ensures s'.tags[t].name != s'.tags[u].name
      {
        if t == id {
          assert !(u in s.tags && s.tags[u].isActive && s.tags[u].name == name);
        } else if u == id {
          assert !(t in s.tags && s.tags[t].isActive && s.tags[t].name == name);
        }
      }
    }
    if UpdateTag(s, id, name, color).Ok? {
      var s' := UpdateTag(s, id, name, color).value;
      forall t, u | t in s'.tags && u in s'.tags && t != u && s'.tags[t].isActive && s'.tags[u].isActive
        ensures s'.tags[t].name != s'.tags[u].name
      {
        if t == id && name != s.tags[id].name {
          assert !(u in s.tags && s.tags[u].isActive && s.tags[u].name == name);
        } else if u == id && name != s.tags[id].name {
          assert !(t in s.tags && s.tags[t].isActive && s.tags[t].name == name);
        }
      }
    }
  }
}

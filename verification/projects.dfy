/**
  The project handlers that touch other tables or remove rows: the
  deactivation cascade to the project's boards, and deletion.
 */
module Projects {
  import opened Kanban

  /** The ids of the boards that belong to project `project`. */
  function BoardsOfProject(s: Store, project: Id): set<Id>
  {
    set b | b in s.boards && s.boards[b].project == Some(project)
  }

  /** Deactivating project `id`: every board of the project, then the
      project itself, becomes inactive; nothing else changes. */
  function DeactivateProject(s: Store, id: Id): (r: Result<Store>)
    ensures r.Ok? <==> id in s.projects
    ensures r.Err? ==> r.error == NotFound
    ensures r.Ok? ==> r.value.boards.Keys == s.boards.Keys
    ensures r.Ok? ==> forall b :: b in BoardsOfProject(s, id) ==> r.value.boards[b] == s.boards[b].(status := Inactive)
    ensures r.Ok? ==> forall b :: b in s.boards && b !in BoardsOfProject(s, id) ==> r.value.boards[b] == s.boards[b]
    ensures r.Ok? ==> r.value.projects.Keys == s.projects.Keys
    ensures r.Ok? ==> r.value.projects[id] == s.projects[id].(status := Inactive)
    ensures r.Ok? ==> forall p :: p in s.projects && p != id ==> r.value.projects[p] == s.projects[p]
    ensures r.Ok? ==> r.value.(boards := s.boards, projects := s.projects) == s
  {
    if id !in s.projects then
      Err(NotFound)
    else
      var boards := map b | b in s.boards ::
        if s.boards[b].project == Some(id) then s.boards[b].(status := Inactive) else s.boards[b];
      var project := s.projects[id].(status := Inactive);
      Ok(s.(boards := boards, projects := s.projects[id := project]))
  }

  /** Deactivating twice gives the same store as deactivating once. */
  lemma DeactivateProjectIdempotent(s: Store, id: Id)
    requires id in s.projects
    ensures DeactivateProject(DeactivateProject(s, id).value, id) == DeactivateProject(s, id)
  {
    var s' := DeactivateProject(s, id).value;
    var s'' := DeactivateProject(s', id).value;
    assert s''.boards == s'.boards;
    assert s''.projects == s'.projects;
  }

  /** Deleting project `id` removes that project row and nothing else. */
  function DeleteProject(s: Store, id: Id): (r: Result<Store>)
    ensures r.Ok? <==> id in s.projects
    ensures r.Err? ==> r.error == NotFound
    ensures r.Ok? ==> r.value.projects.Keys == s.projects.Keys - {id}
    ensures r.Ok? ==> forall p :: p in r.value.projects ==> r.value.projects[p] == s.projects[p]
    ensures r.Ok? ==> r.value.(projects := s.projects) == s
  {
    if id !in s.projects then Err(NotFound) else Ok(s.(projects := s.projects - {id}))
  }
}

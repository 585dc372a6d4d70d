/**
  The list handlers: the position-ordered listing of a board's lists,
  creation with the next-position rule, the merging update, deletion with
  its task cascade, and reordering within a board.
 */
module Lists {
  import opened Kanban
  import opened Sets
  import opened Positions
  import opened Ordering

  /** The ids of the lists of board `board`. */
  function ListsOf(s: Store, board: Id): set<Id>
  {
    set l | l in s.lists && s.lists[l].board == board
  }

  /** The positions the lists of board `board` occupy. */
  function ListPositions(s: Store, board: Id): set<int>
  {
    set l | l in s.lists && s.lists[l].board == board :: s.lists[l].position
  }

  /** getListsByBoard: the lists of the board, each once, by ascending
      position. An unknown board simply has no lists. */
  method ListsByBoard(s: Store, boardId: Id) returns (r: seq<Id>)
    ensures Distinct(r) && Elems(r) == ListsOf(s, boardId)
    ensures forall i :: 0 <= i < |r| ==> r[i] in s.lists
    ensures forall i, j :: 0 <= i < j < |r| ==> s.lists[r[i]].position <= s.lists[r[j]].position
  {
    var key := map l | l in s.lists :: s.lists[l].position;
    IntLeIsTotalPreorder();
    r := SortBy(ListsOf(s, boardId), key, IntLe);
    assert forall i :: 0 <= i < |r| ==> r[i] in Elems(r);
  }

  /** Creating list `id` on board `boardId`. The board must exist; without an
      explicit position the list goes after every list of the board. */
  function CreateList(s: Store, boardId: Id, id: Id, title: string, position: Option<int>): (r: Result<Store>)
    requires id !in s.lists
    ensures r.Ok? <==> boardId in s.boards
    ensures r.Err? ==> r.error == NotFound
    ensures r.Ok? ==> r.value.lists.Keys == s.lists.Keys + {id}
    ensures r.Ok? ==> forall l :: l in s.lists ==> r.value.lists[l] == s.lists[l]
    ensures r.Ok? ==> r.value.lists[id].board == boardId && r.value.lists[id].title == title
    ensures r.Ok? && position.Some? ==> r.value.lists[id].position == position.value
    ensures r.Ok? && position.None? ==> AfterAll(r.value.lists[id].position, ListPositions(s, boardId))
    ensures r.Ok? ==> r.value.(lists := s.lists) == s
  {
    if boardId !in s.boards then
      Err(NotFound)
    else
      var p := if position.Some? then position.value else NextPosition(ListPositions(s, boardId));
      Ok(s.(lists := s.lists[id := List(boardId, title, p)]))
  }

  /** Updating list `id`: a falsy title keeps the old one, and the position
      is replaced only when one is given. */
  function UpdateList(s: Store, id: Id, title: Option<string>, position: Option<int>): (r: Result<Store>)
    ensures r.Ok? <==> id in s.lists
    ensures r.Err? ==> r.error == NotFound
    ensures r.Ok? ==> r.value.lists.Keys == s.lists.Keys
    ensures r.Ok? ==> forall l :: l in s.lists && l != id ==> r.value.lists[l] == s.lists[l]
    ensures r.Ok? ==> r.value.lists[id].board == s.lists[id].board
    ensures r.Ok? && Truthy(title) ==> r.value.lists[id].title == title.value
    ensures r.Ok? && !Truthy(title) ==> r.value.lists[id].title == s.lists[id].title
    ensures r.Ok? && position.Some? ==> r.value.lists[id].position == position.value
    ensures r.Ok? && position.None? ==> r.value.lists[id].position == s.lists[id].position
    ensures r.Ok? ==> r.value.(lists := s.lists) == s
  {
    if id !in s.lists then
      Err(NotFound)
    else
      var l := s.lists[id];
      Ok(s.(lists := s.lists[id := l.(title := OrElse(title, l.title), position := Or(position, l.position))]))
  }

  /** Repeating an update request changes nothing more. */
  lemma UpdateListIdempotent(s: Store, id: Id, title: Option<string>, position: Option<int>)
    requires UpdateList(s, id, title, position).Ok?
    ensures UpdateList(UpdateList(s, id, title, position).value, id, title, position) == UpdateList(s, id, title, position)
  {
    var s' := UpdateList(s, id, title, position).value;
    assert s'.lists[id := s'.lists[id]] == s'.lists;
  }

  /** Deleting list `id` deletes the tasks whose list it is, then the list;
      nothing else changes. */
  function DeleteList(s: Store, id: Id): (r: Result<Store>)
    ensures r.Ok? <==> id in s.lists
    ensures r.Err? ==> r.error == NotFound
    ensures r.Ok? ==> r.value.lists.Keys == s.lists.Keys - {id}
    ensures r.Ok? ==> forall l :: l in r.value.lists ==> r.value.lists[l] == s.lists[l]
    ensures r.Ok? ==> forall t :: t in r.value.tasks <==> t in s.tasks && s.tasks[t].list != id
    ensures r.Ok? ==> forall t :: t in r.value.tasks ==> r.value.tasks[t] == s.tasks[t]
    ensures r.Ok? ==> r.value.(lists := s.lists, tasks := s.tasks) == s
  {
    if id !in s.lists then
      Err(NotFound)
    else
      var tasks := map t | t in s.tasks && s.tasks[t].list != id :: s.tasks[t];
      Ok(s.(tasks := tasks, lists := s.lists - {id}))
  }

  /** Deleting a list just created, with no task pointing at its id,
      gives back the store. */
  lemma CreateThenDeleteList(s: Store, boardId: Id, id: Id, title: string, position: Option<int>)
    requires id !in s.lists && forall t :: t in s.tasks ==> s.tasks[t].list != id
    requires CreateList(s, boardId, id, title, position).Ok?
    ensures DeleteList(CreateList(s, boardId, id, title, position).value, id) == Ok(s)
  {
    var s1 := CreateList(s, boardId, id, title, position).value;
    var s' := DeleteList(s1, id).value;
    assert s1.tasks == s.tasks;
    forall t
      ensures t in s'.tasks <==> t in s.tasks
    {
      if t in s.tasks {
        assert s.tasks[t].list != id;
      }
    }
    assert s'.lists == s.lists;
    assert s'.tasks == s.tasks;
  }

  /** Reordering the lists of board `boardId`: accepted exactly when the ids
      are distinct lists of the board; the list named at index `i` then gets
      position `i`, and lists not named are untouched. */
  function ReorderLists(s: Store, boardId: Id, ids: seq<Id>): (r: Result<Store>)
    ensures r.Ok? <==> ValidOrder(ids, ListsOf(s, boardId))
    ensures r.Err? ==> r.error == BadRequest
    ensures r.Ok? ==> r.value.lists.Keys == s.lists.Keys
    ensures r.Ok? ==> forall i :: 0 <= i < |ids| ==> r.value.lists[ids[i]] == s.lists[ids[i]].(position := i)
    ensures r.Ok? ==> forall l :: l in s.lists && l !in ids ==> r.value.lists[l] == s.lists[l]
    ensures r.Ok? ==> r.value.(lists := s.lists) == s
  {
    MatchCountExact(ids, ListsOf(s, boardId));
    if MatchCount(ids, ListsOf(s, boardId)) != |ids| then
      Err(BadRequest)
    else
      var lists := map l | l in s.lists :: if l in ids then s.lists[l].(position := IndexOf(ids, l)) else s.lists[l];
      assert forall i :: 0 <= i < |ids| ==> IndexOf(ids, ids[i]) == i by {
        forall i | 0 <= i < |ids| {
          IndexOfDistinct(ids, i);
        }
      }
      Ok(s.(lists := lists))
  }

  /** Reordering with every list of the board named leaves the board's
      positions dense: exactly 0 .. n-1. */
  lemma ReorderListsDense(s: Store, boardId: Id, ids: seq<Id>)
    requires ReorderLists(s, boardId, ids).Ok?
    requires Elems(ids) == ListsOf(s, boardId)
    ensures forall q :: q in ListPositions(ReorderLists(s, boardId, ids).value, boardId) <==> 0 <= q < |ids|
  {
    var s' := ReorderLists(s, boardId, ids).value;
    forall q | q in ListPositions(s', boardId)
      ensures 0 <= q < |ids|
    {
      var l :| l in s'.lists && s'.lists[l].board == boardId && s'.lists[l].position == q;
      assert l in ListsOf(s, boardId);
      assert l in Elems(ids);
      var i :| 0 <= i < |ids| && ids[i] == l;
    }
    forall i | 0 <= i < |ids|
      ensures i in ListPositions(s', boardId)
    {
      assert s'.lists[ids[i]].board == boardId;
    }
  }
}

/**
  The board handlers: creation with its validation and the owner membership
  it creates, the merging update, and the listing of a user's boards.
 */
module Boards {
  import opened Kanban
  import opened Sets
  import opened BoardMembers

  /** The visibility a request names: `private` or `public`, nothing else. */
  function ParseVisibility(v: string): (r: Option<Visibility>)
    ensures r == Some(Private) <==> v == "private"
    ensures r == Some(Public) <==> v == "public"
  {
    if v == "private" then Some(Private)
    else if v == "public" then Some(Public)
    else None
  }

  /** A visibility field is acceptable when it is falsy or names a visibility. */
  predicate VisibilityOk(v: Option<string>)
  {
    Truthy(v) ==> ParseVisibility(v.value).Some?
  }

  /** `id` is an unused board key that no membership row points at yet. */
  predicate FreshBoard(s: Store, id: Id)
  {
    id !in s.boards && forall m :: m in s.members ==> s.members[m].board != id
  }

  /** The membership rows of board `board`. */
  function MembersOf(s: Store, board: Id): set<Id>
  {
    set m | m in s.members && s.members[m].board == board
  }

  /** Creating board `id` owned by `owner`, together with its owner
      membership `memberId`. The name must be truthy and a truthy visibility
      must be `private` or `public`; a falsy one means `private`. */
  function CreateBoard(s: Store, id: Id, memberId: Id, name: Option<string>, description: Option<string>,
                       visibility: Option<string>, owner: Id): (r: Result<Store>)
    requires FreshBoard(s, id) && memberId !in s.members
    ensures r.Ok? <==> Truthy(name) && VisibilityOk(visibility)
    ensures r.Err? ==> r.error == BadRequest
    ensures r.Ok? ==> r.value.boards.Keys == s.boards.Keys + {id}
    ensures r.Ok? ==> forall b :: b in s.boards ==> r.value.boards[b] == s.boards[b]
    ensures r.Ok? ==> r.value.boards[id].name == name.value && r.value.boards[id].owner == owner
    ensures r.Ok? ==> r.value.boards[id].description == description
    ensures r.Ok? && Truthy(visibility) ==> Some(r.value.boards[id].visibility) == ParseVisibility(visibility.value)
    ensures r.Ok? && !Truthy(visibility) ==> r.value.boards[id].visibility == DefaultVisibility
    ensures r.Ok? ==> r.value.boards[id].status == DefaultStatus && r.value.boards[id].project.None?
    ensures r.Ok? ==> r.value.members == s.members[memberId := Membership(id, owner, Owner)]
    ensures r.Ok? ==> r.value.(boards := s.boards, members := s.members) == s
  {
    if !Truthy(name) then
      Err(BadRequest)
    else if !VisibilityOk(visibility) then
      Err(BadRequest)
    else
      var v := if Truthy(visibility) then ParseVisibility(visibility.value).value else DefaultVisibility;
      var board := Board(name.value, description, owner, None, v, DefaultStatus);
      Ok(s.(boards := s.boards[id := board], members := s.members[memberId := Membership(id, owner, Owner)]))
  }

  /** A new board has exactly one membership: its owner's, with role owner;
      and no other board gains or loses an owner. */
  lemma CreateBoardSingleOwner(s: Store, id: Id, memberId: Id, name: Option<string>, description: Option<string>,
                               visibility: Option<string>, owner: Id)
    requires FreshBoard(s, id) && memberId !in s.members
    requires CreateBoard(s, id, memberId, name, description, visibility, owner).Ok?
    ensures var s' := CreateBoard(s, id, memberId, name, description, visibility, owner).value;
      && MembersOf(s', id) == {memberId}
      && OwnersOf(s', id) == {memberId}
      && s'.members[memberId].user == owner
      && forall b :: b != id ==> OwnersOf(s', b) == OwnersOf(s, b)
  {
    var s' := CreateBoard(s, id, memberId, name, description, visibility, owner).value;
    assert forall m :: m in MembersOf(s', id) ==> m == memberId;
    assert memberId in MembersOf(s', id);
    assert memberId in OwnersOf(s', id);
  }

  /** Creating a board keeps (board, user) pairs unique. */
  lemma CreateBoardKeepsPairsUnique(s: Store, id: Id, memberId: Id, name: Option<string>, description: Option<string>,
                                    visibility: Option<string>, owner: Id)
    requires FreshBoard(s, id) && memberId !in s.members
    requires UniquePairs(s)
    requires CreateBoard(s, id, memberId, name, description, visibility, owner).Ok?
    ensures UniquePairs(CreateBoard(s, id, memberId, name, description, visibility, owner).value)
  {
    var s' := CreateBoard(s, id, memberId, name, description, visibility, owner).value;
    forall m, n | m in s'.members && n in s'.members && m != n
      ensures s'.members[m].board != s'.members[n].board || s'.members[m].user != s'.members[n].user
    {
      if m == memberId {
        assert n in s.members;
      } else if n == memberId {
        assert m in s.members;
      }
    }
  }

  /** Updating board `id`: the board must exist, and only then is a truthy
      visibility checked. Falsy fields keep their old values; the owner, the
      project and the status never change. */
  function UpdateBoard(s: Store, id: Id, name: Option<string>, description: Option<string>,
                       visibility: Option<string>): (r: Result<Store>)
    ensures id !in s.boards ==> r == Err(NotFound)
    ensures r.Ok? <==> id in s.boards && VisibilityOk(visibility)
    ensures id in s.boards && !VisibilityOk(visibility) ==> r == Err(BadRequest)
    ensures r.Ok? ==> r.value.boards.Keys == s.boards.Keys
    ensures r.Ok? ==> forall b :: b in s.boards && b != id ==> r.value.boards[b] == s.boards[b]
    ensures r.Ok? ==> var prev, next := s.boards[id], r.value.boards[id];
      && next.name == (if Truthy(name) then name.value else prev.name)
      && next.description == (if Truthy(description) then description else prev.description)
      && (Truthy(visibility) ==> Some(next.visibility) == ParseVisibility(visibility.value))
      && (!Truthy(visibility) ==> next.visibility == prev.visibility)
      && next.owner == prev.owner && next.project == prev.project && next.status == prev.status
    ensures r.Ok? ==> r.value.(boards := s.boards) == s
  {
    if id !in s.boards then
      Err(NotFound)
    else if !VisibilityOk(visibility) then
      Err(BadRequest)
    else
      var b := s.boards[id];
      var v := if Truthy(visibility) then ParseVisibility(visibility.value).value else b.visibility;
      var d := if Truthy(description) then description else b.description;
      Ok(s.(boards := s.boards[id := b.(name := OrElse(name, b.name), description := d, visibility := v)]))
  }

  /** Repeating an update request changes nothing more. */
  lemma UpdateBoardIdempotent(s: Store, id: Id, name: Option<string>, description: Option<string>, visibility: Option<string>)
    requires UpdateBoard(s, id, name, description, visibility).Ok?
    ensures UpdateBoard(UpdateBoard(s, id, name, description, visibility).value, id, name, description, visibility)
         == UpdateBoard(s, id, name, description, visibility)
  {
    var s' := UpdateBoard(s, id, name, description, visibility).value;
    assert s'.boards[id := s'.boards[id]] == s'.boards;
  }

  /** getBoardsByUser: the boards joined with at least one membership row of
      user `user`. */
  function BoardsByUser(s: Store, user: Id): (r: set<Id>)
    ensures forall b :: b in r <==> b in s.boards && FindMember(s, b, user).Some?
  {
    var found := set m | m in s.members && s.members[m].user == user && s.members[m].board in s.boards :: s.members[m].board;
    assert forall b :: b in found <==> b in s.boards && MatchingMembers(s, b, user) != {} by {
      forall b
        ensures b in found <==> b in s.boards && MatchingMembers(s, b, user) != {}
      {
        if b in found {
          var m :| m in s.members && s.members[m].user == user && s.members[m].board in s.boards && s.members[m].board == b;
          assert m in MatchingMembers(s, b, user);
        }
        if b in s.boards && MatchingMembers(s, b, user) != {} {
          var m := Pick(MatchingMembers(s, b, user));
          assert s.members[m].board == b;
        }
      }
    }
    found
  }

  /** A new board is among its owner's boards. */
  lemma CreateBoardVisibleToOwner(s: Store, id: Id, memberId: Id, name: Option<string>, description: Option<string>,
                                  visibility: Option<string>, owner: Id)
    requires FreshBoard(s, id) && memberId !in s.members
    requires CreateBoard(s, id, memberId, name, description, visibility, owner).Ok?
    ensures id in BoardsByUser(CreateBoard(s, id, memberId, name, description, visibility, owner).value, owner)
  {
    var s' := CreateBoard(s, id, memberId, name, description, visibility, owner).value;
    assert memberId in MatchingMembers(s', id, owner);
  }

  /** An added member sees the board; a removed one, while pairs are unique,
      no longer does; and every other user's boards stay as they were. */
  lemma MembershipChangesBoardsByUser(s: Store, id: Id, board: Id, user: Id, role: Option<string>)
    requires id !in s.members
    ensures AddBoardMember(s, id, Some(board), Some(user), role).Ok? ==>
      var s' := AddBoardMember(s, id, Some(board), Some(user), role).value;
      && BoardsByUser(s', user) == BoardsByUser(s, user) + {board}
      && forall u :: u != user ==> BoardsByUser(s', u) == BoardsByUser(s, u)
    ensures UniquePairs(s) && RemoveBoardMember(s, board, user).Ok? ==>
      var s' := RemoveBoardMember(s, board, user).value;
      && BoardsByUser(s', user) == BoardsByUser(s, user) - {board}
      && forall u :: u != user ==> BoardsByUser(s', u) == BoardsByUser(s, u)
  {
    if AddBoardMember(s, id, Some(board), Some(user), role).Ok? {
      var s' := AddBoardMember(s, id, Some(board), Some(user), role).value;
      forall b
        ensures b in BoardsByUser(s', user) <==> b in BoardsByUser(s, user) + {board}
      {
        if b == board {
          assert id in MatchingMembers(s', b, user);
        } else {
          assert MatchingMembers(s', b, user) == MatchingMembers(s, b, user);
        }
      }
      forall u, b | u != user
        ensures b in BoardsByUser(s', u) <==> b in BoardsByUser(s, u)
      {
        assert MatchingMembers(s', b, u) == MatchingMembers(s, b, u);
      }
    }
    if UniquePairs(s) && RemoveBoardMember(s, board, user).Ok? {
      var s' := RemoveBoardMember(s, board, user).value;
      RemoveBoardMemberRemovesPair(s, board, user);
      forall b
        ensures b in BoardsByUser(s', user) <==> b in BoardsByUser(s, user) - {board}
      {
        if b != board {
          assert MatchingMembers(s', b, user) == MatchingMembers(s, b, user);
        }
      }
      forall u, b | u != user
        ensures b in BoardsByUser(s', u) <==> b in BoardsByUser(s, u)
      {
        assert MatchingMembers(s', b, u) == MatchingMembers(s, b, u);
      }
    }
  }
}

/**
  The board-membership handlers and the role rules they enforce: only the
  roles `admin` and `member` can be given, the owner's membership can be
  neither changed nor removed, and a (board, user) pair is a member once.
 */
module BoardMembers {
  import opened Kanban
  import opened Sets

  /** The ids of the membership rows for the pair (board, user). */
  function MatchingMembers(s: Store, board: Id, user: Id): set<Id>
  {
    set m | m in s.members && s.members[m].board == board && s.members[m].user == user
  }

  /** `findOne` on the pair (board, user): some membership row of the pair,
      or none when the user is not a member. The row chosen is the one with
      the greatest id; while pairs are unique there is only one. */
  function FindMember(s: Store, board: Id, user: Id): (r: Option<Id>)
    ensures r.None? <==> MatchingMembers(s, board, user) == {}
    ensures r.Some? ==> r.value in s.members
    ensures r.Some? ==> s.members[r.value].board == board && s.members[r.value].user == user
  {
    var found := MatchingMembers(s, board, user);
    if found == {} then None else Some(Max(found))
  }

  /** At most one membership row per (board, user) pair. */
  ghost predicate UniquePairs(s: Store)
  {
    forall m, n :: m in s.members && n in s.members && m != n ==>
      s.members[m].board != s.members[n].board || s.members[m].user != s.members[n].user
  }

  /** The owner memberships of `s'` are exactly those of `s`, row for row. */
  ghost predicate SameOwners(s: Store, s': Store)
  {
    && (forall m :: m in s.members && s.members[m].role == Owner ==> m in s'.members && s'.members[m] == s.members[m])
    && (forall m :: m in s'.members && s'.members[m].role == Owner ==> m in s.members && s.members[m] == s'.members[m])
  }

  /** The owner memberships of board `board`. */
  function OwnersOf(s: Store, board: Id): set<Id>
  {
    set m | m in s.members && s.members[m].board == board && s.members[m].role == Owner
  }

  /** Stores with the same owner rows have the same owners on every board. */
  lemma SameOwnersSameCount(s: Store, s': Store, board: Id)
    requires SameOwners(s, s')
    ensures |OwnersOf(s', board)| == |OwnersOf(s, board)|
  {
    forall m
      ensures m in OwnersOf(s', board) <==> m in OwnersOf(s, board)
    {
      if m in OwnersOf(s', board) {
        assert m in s.members && s.members[m] == s'.members[m];
      }
      if m in OwnersOf(s, board) {
        assert m in s'.members && s'.members[m] == s.members[m];
      }
    }
    assert OwnersOf(s', board) == OwnersOf(s, board);
  }

  /** The roles a request may give: `admin` and `member`, never `owner`. */
  function AssignableRole(role: string): (r: Option<Role>)
    ensures r.Some? ==> r.value != Owner
    ensures r.Some? <==> role == "admin" || role == "member"
    ensures role == "admin" ==> r == Some(Admin)
    ensures role == "member" ==> r == Some(Member)
  {
    if role == "admin" then Some(Admin)
    else if role == "member" then Some(Member)
    else None
  }

  /** Adding user `user` to board `board` as row `id`. Both ids must be
      truthy, a truthy role must be assignable, board and user must exist,
      and the user must not be a member yet; a falsy role means `member`. */
  function AddBoardMember(s: Store, id: Id, board: Option<Id>, user: Option<Id>, role: Option<string>): (r: Result<Store>)
    requires id !in s.members
    ensures !GivenId(board) || !GivenId(user) ==> r == Err(BadRequest)
    ensures GivenId(board) && GivenId(user) && Truthy(role) && AssignableRole(role.value).None? ==> r == Err(BadRequest)
    ensures r.Ok? <==>
      && GivenId(board) && GivenId(user)
      && (Truthy(role) ==> AssignableRole(role.value).Some?)
      && board.value in s.boards
      && user.value in s.users
      && FindMember(s, board.value, user.value).None?
    ensures r.Err? && GivenId(board) && GivenId(user) && (Truthy(role) ==> AssignableRole(role.value).Some?) ==>
      r.error == (if board.value !in s.boards || user.value !in s.users then NotFound else BadRequest)
    ensures r.Ok? ==> r.value.members.Keys == s.members.Keys + {id}
    ensures r.Ok? ==> forall m :: m in s.members ==> r.value.members[m] == s.members[m]
    ensures r.Ok? ==> r.value.members[id].board == board.value && r.value.members[id].user == user.value
    ensures r.Ok? && !Truthy(role) ==> r.value.members[id].role == DefaultRole
    ensures r.Ok? && Truthy(role) ==> r.value.members[id].role == AssignableRole(role.value).value
    ensures r.Ok? ==> r.value.members[id].role != Owner
    ensures r.Ok? ==> SameOwners(s, r.value)
    ensures r.Ok? ==> r.value.(members := s.members) == s
  {
    if !GivenId(board) || !GivenId(user) then
      Err(BadRequest)
    else if Truthy(role) && AssignableRole(role.value).None? then
      Err(BadRequest)
    else if board.value !in s.boards then
      Err(NotFound)
    else if user.value !in s.users then
      Err(NotFound)
    else if FindMember(s, board.value, user.value).Some? then
      Err(BadRequest)
    else
      var r := if Truthy(role) then AssignableRole(role.value).value else DefaultRole;
      Ok(s.(members := s.members[id := Membership(board.value, user.value, r)]))
  }

  /** Adding a member keeps (board, user) pairs unique. */
  lemma AddBoardMemberKeepsPairsUnique(s: Store, id: Id, board: Option<Id>, user: Option<Id>, role: Option<string>)
    requires id !in s.members
    requires UniquePairs(s)
    requires AddBoardMember(s, id, board, user, role).Ok?
    ensures UniquePairs(AddBoardMember(s, id, board, user, role).value)
  {
    var s' := AddBoardMember(s, id, board, user, role).value;
    forall m, n | m in s'.members && n in s'.members && m != n
      ensures s'.members[m].board != s'.members[n].board || s'.members[m].user != s'.members[n].user
    {
      if m == id || n == id {
        var other := if m == id then n else m;
        assert other in s.members;
      }
    }
  }

  /** Changing the role of `user` on `board`. The new role must be `admin`
      or `member`, the membership must exist, and it must not be the
      owner's; only that row's role changes. */
  function UpdateMemberRole(s: Store, board: Id, user: Id, role: Option<string>): (r: Result<Store>)
    ensures !Truthy(role) || AssignableRole(role.value).None? ==> r == Err(BadRequest)
    ensures Truthy(role) && AssignableRole(role.value).Some? && FindMember(s, board, user).None? ==> r == Err(NotFound)
    ensures FindMember(s, board, user).Some? && s.members[FindMember(s, board, user).value].role == Owner ==> r.Err?
    ensures (Truthy(role) && AssignableRole(role.value).Some? && FindMember(s, board, user).Some? &&
             s.members[FindMember(s, board, user).value].role == Owner) ==> r == Err(Forbidden)
    ensures r.Ok? <==>
      && Truthy(role) && AssignableRole(role.value).Some?
      && FindMember(s, board, user).Some?
      && s.members[FindMember(s, board, user).value].role != Owner
    ensures r.Ok? ==>
      var m := FindMember(s, board, user).value;
      && r.value.members == s.members[m := s.members[m].(role := AssignableRole(role.value).value)]
      && s.members[m].role != Owner
    ensures r.Ok? ==> SameOwners(s, r.value)
    ensures r.Ok? ==> r.value.(members := s.members) == s
  {
    if !Truthy(role) || AssignableRole(role.value).None? then
      Err(BadRequest)
    else
      match FindMember(s, board, user)
      case None => Err(NotFound)
      case Some(m) =>
        if s.members[m].role == Owner then Err(Forbidden)
        else Ok(s.(members := s.members[m := s.members[m].(role := AssignableRole(role.value).value)]))
  }

  /** Changing a member's role keeps (board, user) pairs unique. */
  lemma UpdateMemberRoleKeepsPairsUnique(s: Store, board: Id, user: Id, role: Option<string>)
    requires UniquePairs(s)
    requires UpdateMemberRole(s, board, user, role).Ok?
    ensures UniquePairs(UpdateMemberRole(s, board, user, role).value)
  {
    var s' := UpdateMemberRole(s, board, user, role).value;
    var m := FindMember(s, board, user).value;
    forall n, k | n in s'.members && k in s'.members && n != k
      ensures s'.members[n].board != s'.members[k].board || s'.members[n].user != s'.members[k].user
    {
      assert s'.members[n].board == s.members[n].board && s'.members[n].user == s.members[n].user;
      assert s'.members[k].board == s.members[k].board && s'.members[k].user == s.members[k].user;
    }
  }

  /** Removing `user` from `board`. The membership must exist and must not
      be the owner's; exactly that row is removed. */
  function RemoveBoardMember(s: Store, board: Id, user: Id): (r: Result<Store>)
    ensures FindMember(s, board, user).None? ==> r == Err(NotFound)
    ensures FindMember(s, board, user).Some? && s.members[FindMember(s, board, user).value].role == Owner ==> r == Err(Forbidden)
    ensures r.Ok? <==> FindMember(s, board, user).Some? && s.members[FindMember(s, board, user).value].role != Owner
    ensures r.Ok? ==> r.value.members == s.members - {FindMember(s, board, user).value}
    ensures r.Ok? ==> SameOwners(s, r.value)
    ensures r.Ok? ==> r.value.(members := s.members) == s
  {
    match FindMember(s, board, user)
    case None => Err(NotFound)
    case Some(m) =>
      if s.members[m].role == Owner then Err(Forbidden)
      else Ok(s.(members := s.members - {m}))
  }

  /** While pairs are unique, a removed member is no longer a member. */
  lemma RemoveBoardMemberRemovesPair(s: Store, board: Id, user: Id)
    requires UniquePairs(s)
    requires RemoveBoardMember(s, board, user).Ok?
    ensures FindMember(RemoveBoardMember(s, board, user).value, board, user).None?
    ensures UniquePairs(RemoveBoardMember(s, board, user).value)
  {
    var s' := RemoveBoardMember(s, board, user).value;
    var m := FindMember(s, board, user).value;
    assert MatchingMembers(s', board, user) == MatchingMembers(s, board, user) - {m};
  }
}

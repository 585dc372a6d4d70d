/**
  The data model of the Kanban back end: one record type per table, the
  enumerations the schema declares, and the whole database as an immutable
  `Store`. Every request handler is modelled as a function from a store to
  either an error (the HTTP status it answers with) or the new store; since
  each handler commits fully or not at all, an error leaves the store as it
  was.
 */
module Kanban {

  /** Primary keys. Integers stand for both the auto-increment and the UUID
      keys of the schema; only equality between keys matters. */
  type Id = int

  datatype Option<T> = None | Some(value: T)

  /** The HTTP error statuses the handlers answer with. */
  datatype ErrorKind =
    | NotFound    // 404
    | BadRequest  // 400
    | Forbidden   // 403

  datatype Result<T> = Ok(value: T) | Err(error: ErrorKind)

  // ---- Enumerations of the schema ------------------------------------------

  datatype Priority = Low | Medium | High
  datatype TaskStatus = Pending | InProgress | Completed
  datatype Visibility = Public | Private
  datatype Status = Active | Inactive
  datatype Role = Owner | Admin | Member

  const DefaultPriority: Priority := Medium
  const DefaultTaskStatus: TaskStatus := Pending
  const DefaultVisibility: Visibility := Private
  const DefaultStatus: Status := Active
  const DefaultRole: Role := Member

  // ---- Records ---------------------------------------------------------------

  datatype User = User(fullName: string, email: string, password: string, isActive: bool)

  /** A project. The handlers write a `status` column, so the record has one. */
  datatype Project = Project(name: string, description: string, category: string, color: string, status: Status)

  /** A board. `project` is optional because board creation never sets it. */
  datatype Board = Board(
    name: string,
    description: Option<string>,
    owner: Id,
    project: Option<Id>,
    visibility: Visibility,
    status: Status)

  /** A row of the board_members join table. */
  datatype Membership = Membership(board: Id, user: Id, role: Role)

  /** A list of a board; `position` orders the lists of one board. */
  datatype List = List(board: Id, title: string, position: int)

  /** A task of a list; `position` orders the tasks of one list. */
  datatype Task = Task(
    list: Id,
    title: string,
    description: Option<string>,
    dueDate: Option<int>,
    priority: Priority,
    status: TaskStatus,
    position: int,
    assignee: Option<Id>)

  datatype Tag = Tag(name: string, color: string, isActive: bool)

  /** The database: one map per table from primary key to row, and the two
      many-to-many link tables as sets of (task, other) pairs. */
  datatype Store = Store(
    users: map<Id, User>,
    projects: map<Id, Project>,
    boards: map<Id, Board>,
    members: map<Id, Membership>,
    lists: map<Id, List>,
    tasks: map<Id, Task>,
    tags: map<Id, Tag>,
    taskTags: set<(Id, Id)>,
    assignments: set<(Id, Id)>)

  // ---- JavaScript truthiness of request fields --------------------------------

  /** A string field is truthy when it is present and not empty. */
  predicate Truthy(x: Option<string>)
  {
    x.Some? && x.value != ""
  }

  /** `x || fallback` for a string field. */
  function OrElse(x: Option<string>, fallback: string): (r: string)
    ensures Truthy(x) ==> r == x.value
    ensures !Truthy(x) ==> r == fallback
  {
    if Truthy(x) then x.value else fallback
  }

  /** An id field is truthy when it is present and not 0. */
  predicate GivenId(x: Option<Id>)
  {
    x.Some? && x.value != 0
  }

  /** `x || fallback` for a field with no falsy value other than absence. */
  function Or<T>(x: Option<T>, fallback: T): T
  {
    if x.Some? then x.value else fallback
  }
}

# Kanban back end: request handlers as store transitions

This project models the controllers of an Express/Sequelize Kanban API in
Dafny. The API manages users, projects, boards, board memberships, lists,
tasks and tags. Every handler first checks its inputs against the database
and then writes. Its writes commit together or not at all. So each handler
is modelled as a pure function from an immutable `Store` to a
`Result<Store>`:

- An `Err` carries the HTTP status the handler answers with: `NotFound`
  (404), `BadRequest` (400) or `Forbidden` (403). An error leaves the store
  as it was.
- An `Ok` carries the new store. Every handler's contract also states that
  nothing outside the rows it writes changes.

The store (`Kanban.Store`) holds one map from primary key to row per table.
The two many-to-many link tables (task–tag and task–assignee) are sets of
pairs. The database's key generator becomes a parameter of each creating
handler, with a `requires` that the key is fresh.

Modules follow the controllers:

- `Tasks` models task creation, update, deletion, reordering, moving and
  user assignment. The task route `addTags` runs the same checks and writes
  as `addTagsToTask`, so `TaskTags.AddTagsToTask` models both.
- `Lists`, `Projects`, `BoardMembers`, `Boards`, `Tags`, `Users` and
  `TaskTags` each model the controller of the same name.
- `Positions` holds the "max + 1, or 0" placement rule and the count check
  that reorders and tag or user edits share. `MatchCountExact` proves that
  the check passes exactly when the ids are distinct and all belong to the
  parent.
- `Ordering` holds the `ORDER BY ... ASC` of the listings: a verified
  selection sort under a total preorder.
- `Links` holds the set/add/remove association helpers.
- `Sets` holds finite-set facts.

Request fields follow JavaScript truthiness:

- A string field is falsy when it is absent or `""`.
- An id field is falsy when it is absent or `0`.
- Fields the code tests with `!== undefined` are `Option`s whose `None` is
  "absent".

Where the schema files and the controllers disagree, the model follows the
controllers:

- A list has a `title`: the controllers read and write `title`, while
  `src/models/List.js` calls the column `name`.
- A project has a `status`, because `deactivateProject` writes one;
  `src/models/Project.js` declares no such column.
- A board's project is optional, because `createBoard` never sets it.
- The reorder handlers accept any repetition-free subset of the parent's
  children, not only a full list. The count check only compares the number
  of matched rows with the number of ids.

`src/models/User.js` and `src/models/Tag.js` are not part of this model.
A new user's `is_active` is taken to start `true`, as `reactivateUser`
implies.

## Model

| member | source | states |
|---|---|---|
| Positions.NextPosition | src/controllers/taskController.js:98-106 | The position given to an appended row is one more than the greatest sibling position, or 0 when there are no siblings (`AfterAll`). |
| Positions.AfterAllUnique | src/controllers/listController.js:85-93 | The "after every sibling" position is uniquely determined, so any implementation of the rule gives the same position. |
| Positions.MatchCountExact | src/controllers/taskController.js:282-295 | The count of rows matched by `id IN ids AND parent = p` equals `|ids|` exactly when the ids are pairwise distinct and every one is a child of `p`. |
| Positions.IndexOfDistinct | src/controllers/taskController.js:298-308 | In a repetition-free id list, the index of the id at index `i` is `i`, so "position := index" is well defined. |
| Tasks.CreateTask | src/controllers/taskController.js:86-122 | An unknown list is NotFound with no change. Otherwise exactly one task is added, in that list, with the request's fields and default priority and status. An explicit position is stored unchanged; without one the task goes after every task of the list. A non-empty tag list becomes its tags; other tasks and links are unchanged. |
| Tasks.CreateTaskAppendsLast | src/controllers/taskController.js:98-106 | After an append, the list's positions are the old ones plus the new one, and the next append goes right after it. |
| Tasks.CreateThenDeleteTask | src/controllers/taskController.js:109-117 | Deleting a task just created without tags gives back the original store. |
| Tasks.MergeTask | src/controllers/taskController.js:188-196 | Falsy title, due date, priority, assignee and list keep the old values. Description and position are replaced whenever they are present. Status never changes. |
| Tasks.UpdateTask | src/controllers/taskController.js:166-201 | Succeeds exactly when the task exists and a truthy list id other than the task's own names an existing list; otherwise NotFound. The task becomes the merge of old row and request. A tag list replaces its tags. Nothing else changes. |
| Tasks.UpdateTaskIdempotent | src/controllers/taskController.js:176-201 | Repeating an accepted update request changes nothing more. |
| Tasks.DeleteTask | src/controllers/taskController.js:244-256 | An unknown task is NotFound; otherwise exactly that task goes, and every other task keeps its row, its position included. |
| Tasks.ReorderTasks | src/controllers/taskController.js:282-308 | Accepted exactly when the ids are distinct tasks of the list, otherwise BadRequest with no change. Then the task named at index `i` gets position `i`, keeping its other fields, and unnamed tasks are untouched. |
| Tasks.ReorderTasksDense | src/controllers/taskController.js:298-308 | When every task of the list is named, the list's positions afterwards are exactly 0 .. n-1. |
| Tasks.ReorderTasksIdempotent | src/controllers/taskController.js:282-308 | Repeating an accepted reorder request changes nothing more. |
| Tasks.MoveTask | src/controllers/taskController.js:335-368 | Succeeds exactly when task and destination list exist, otherwise NotFound. Only the task's list and position change. Without a position the task goes after every task of the destination. No other task, in particular none of the source list, is renumbered. |
| Tasks.MoveTaskUndo | src/controllers/taskController.js:365-368 | Moving a task back to its old list and position restores the store. |
| Tasks.AssignUsers | src/controllers/taskController.js:395-418 | An unknown task is NotFound. The user ids must be distinct existing users, otherwise BadRequest. Then the task's assignees become exactly those users; other tasks' assignees are unchanged. |
| Lists.ListsByBoard | src/controllers/listController.js:11-16 | Returns every list of the board exactly once, in ascending position order. |
| Lists.CreateList | src/controllers/listController.js:76-99 | An unknown board is NotFound with no change. Otherwise one list is added to the board, at the given position or after every list of the board. |
| Lists.UpdateList | src/controllers/listController.js:125-136 | An unknown list is NotFound. A falsy title keeps the old one. The position is replaced only when one is given. The board and the other lists are unchanged. |
| Lists.UpdateListIdempotent | src/controllers/listController.js:133-136 | Repeating an accepted update request changes nothing more. |
| Lists.DeleteList | src/controllers/listController.js:160-176 | An unknown list is NotFound. Otherwise the list goes, a task survives exactly when its list is another one, and survivors are unchanged. |
| Lists.CreateThenDeleteList | src/controllers/listController.js:169-176 | Deleting a list just created, when no task points at its id, gives back the original store. |
| Lists.ReorderLists | src/controllers/listController.js:204-230 | Accepted exactly when the ids are distinct lists of the board, otherwise BadRequest with no change. Then list `ids[i]` gets position `i` and other lists are untouched. |
| Lists.ReorderListsDense | src/controllers/listController.js:220-230 | When every list of the board is named, the board's positions afterwards are exactly 0 .. n-1. |
| Projects.DeactivateProject | src/controllers/projectController.js:128-144 | An unknown project is NotFound with no change. Otherwise exactly the project's boards become inactive and so does the project. Other boards, projects and tables are unchanged. |
| Projects.DeactivateProjectIdempotent | src/controllers/projectController.js:135-144 | Deactivating twice gives the same store as deactivating once. |
| Projects.DeleteProject | src/controllers/projectController.js:109-116 | An unknown project is NotFound; otherwise exactly that project row goes. |
| BoardMembers.FindMember | src/controllers/boardMemberController.js:48-50 | Finds a membership row of the (board, user) pair exactly when one exists. |
| BoardMembers.AssignableRole | src/controllers/boardMemberController.js:31-33 | Only `admin` and `member` are accepted as roles; `admin` gives Admin, `member` gives Member, and neither gives owner. |
| BoardMembers.AddBoardMember | src/controllers/boardMemberController.js:27-60 | Missing ids are BadRequest. A truthy role other than admin/member is BadRequest. An unknown board or user is NotFound. An existing pair is BadRequest. Otherwise one non-owner row is added, with role `member` when none is given, and owner rows are unchanged. |
| BoardMembers.AddBoardMemberKeepsPairsUnique | src/controllers/boardMemberController.js:47-60 | Adding a member keeps at most one membership per (board, user) pair. |
| BoardMembers.UpdateMemberRole | src/controllers/boardMemberController.js:82-100 | A role other than admin/member is BadRequest, a missing membership NotFound, and the owner's membership Forbidden. Otherwise it succeeds, and only that row's role changes and owner rows are unchanged. |
| BoardMembers.UpdateMemberRoleKeepsPairsUnique | src/controllers/boardMemberController.js:87-100 | Changing a member's role keeps at most one membership per (board, user) pair. |
| BoardMembers.RemoveBoardMember | src/controllers/boardMemberController.js:121-134 | A missing membership is NotFound and the owner's is Forbidden. Otherwise exactly that row goes and owner rows are unchanged. |
| BoardMembers.RemoveBoardMemberRemovesPair | src/controllers/boardMemberController.js:121-134 | While pairs are unique, the removed user is no longer a member of the board, and pairs stay unique. |
| BoardMembers.SameOwnersSameCount | src/controllers/boardMemberController.js:31-134 | Handlers that keep the owner rows keep every board's number of owner memberships. |
| Boards.ParseVisibility | src/controllers/boardController.js:54-56 | Exactly `private` and `public` name a visibility. |
| Boards.CreateBoard | src/controllers/boardController.js:50-70 | A falsy name or a truthy visibility outside {private, public} is BadRequest. Otherwise the board is added with visibility defaulting to private and status active, together with the owner membership `(board, owner, owner)`. |
| Boards.CreateBoardSingleOwner | src/controllers/boardController.js:58-70 | The new board has exactly one membership, which is the owner's with role owner; other boards' owners are unchanged. |
| Boards.CreateBoardKeepsPairsUnique | src/controllers/boardController.js:66-70 | Creating a board keeps (board, user) pairs unique. |
| Boards.UpdateBoard | src/controllers/boardController.js:88-103 | An unknown board is NotFound even when the visibility is invalid. Otherwise a bad visibility is BadRequest. Falsy fields keep their old values, and owner, project and status never change. |
| Boards.UpdateBoardIdempotent | src/controllers/boardController.js:99-103 | Repeating an accepted update request changes nothing more. |
| Boards.BoardsByUser | src/controllers/boardController.js:137-147 | A board is listed exactly when it exists and the user has a membership on it. |
| Boards.CreateBoardVisibleToOwner | src/controllers/boardController.js:58-70 | A new board is among its owner's boards. |
| Boards.MembershipChangesBoardsByUser | src/controllers/boardMemberController.js:56-134 | Adding a member adds exactly that board to the user's boards. Removing one, while pairs are unique, takes exactly that board away. Every other user's boards are unchanged. |
| Tags.AllTags | src/controllers/tagController.js:7-10 | Returns every active tag exactly once and no inactive one, in ascending name order. |
| Tags.CreateTag | src/controllers/tagController.js:53-68 | A name held by an active tag is BadRequest; otherwise exactly one active tag is added. |
| Tags.UpdateTag | src/controllers/tagController.js:91-113 | An unknown tag is NotFound. A changed name held by an active tag is BadRequest. Otherwise name and color are set and the active flag is kept. |
| Tags.UpdateTagIdempotent | src/controllers/tagController.js:99-113 | Repeating an accepted update request changes nothing more. |
| Tags.DeleteTag | src/controllers/tagController.js:135-143 | An unknown tag is NotFound. Otherwise the row stays with its name and color, and only its active flag is cleared. |
| Tags.DeleteTagIdempotent | src/controllers/tagController.js:143 | Deleting a tag a second time changes nothing. |
| Tags.TagHandlersKeepNamesUnique | src/controllers/tagController.js:53-143 | Create, update and delete keep "no two active tags share a name". |
| Users.CreateUser | src/controllers/userController.js:85-98 | A registered e-mail is BadRequest with no change; otherwise exactly one active user is added. |
| Users.UpdateUser | src/controllers/userController.js:132-157 | An unknown user is NotFound. A truthy, changed e-mail that is registered is BadRequest. Falsy fields keep their old values and the active flag stays. |
| Users.UpdateUserIdempotent | src/controllers/userController.js:142-157 | Repeating an accepted update request changes nothing more. |
| Users.SetActive | src/controllers/userController.js:190-237 | Deactivating and reactivating set `is_active` of an existing user and change nothing else (no cascade to boards or memberships); an unknown user is NotFound. |
| Users.DeactivateReactivateRoundTrip | src/controllers/userController.js:199-237 | Deactivate then reactivate restores an active user's store, and reactivate then deactivate restores an inactive one's. |
| Users.CreateUserKeepsEmailsUnique | src/controllers/userController.js:85-98 | Registering a user keeps e-mail addresses unique. |
| Users.UpdateUserKeepsEmailsUnique | src/controllers/userController.js:142-157 | Updating a user keeps e-mail addresses unique. |
| TaskTags.CheckTags | src/controllers/taskTagController.js:39-59 | An unknown task is NotFound. The tag ids must be distinct existing tags, active or not, otherwise BadRequest. |
| TaskTags.AddTagsToTask | src/controllers/taskTagController.js:39-62 | After the checks, the task's tags become the old ones together with the ids; other tasks' tags are unchanged. |
| TaskTags.RemoveTagsFromTask | src/controllers/taskTagController.js:93-116 | After the same checks, the task's tags become the old ones minus the ids; other tasks' tags are unchanged. |
| TaskTags.AddTagsIdempotent | src/controllers/taskTagController.js:62 | Adding the same tags again is accepted and leaves every task's tags as they were. |
| TaskTags.RemoveAfterAdd | src/controllers/taskTagController.js:62-116 | Removing tags just added leaves the task's old tags minus those ids, and every other task's tags as they were. |
| TaskTags.TasksByTag | src/controllers/taskTagController.js:144-161 | An unknown tag is NotFound. Otherwise returns every existing task that carries the tag, exactly once, in ascending position order. |
| Ordering.SortBy | src/controllers/listController.js:11-13 | The sort behind `ORDER BY ... ASC` lists every element of the set once, with keys ascending under any total preorder. |
| Ordering.NameLeIsTotalPreorder | src/controllers/tagController.js:9 | Lexicographic order on names is a total preorder, so sorting by name is well defined. |
| Links.ReplaceIdempotent | src/controllers/taskController.js:199-201 | Setting a task's links twice to the same ids is setting them once. |

## Left out

- Authentication, comments, task assignments as their own resource, routes and server start-up have no logic modelled here. They are `src/controllers/authController.js` (hashing and token signing are foreign calls), `src/controllers/taskCommentController.js`, `src/controllers/taskAssignmentController.js`, `src/routes`, `src/index.js` and `src/config`.
- The plain reads and unchecked writes are not modelled: the single-row getters, getBoards, getBoardMembers, getAllProjects, getTasksByList, getUsers, createProject, updateProject, deleteBoard, getTagsByTask, getTagById, and the `getTasksByTag` of the tag controller. That last one returns the same tasks as `TaskTags.TasksByTag` but without an order.
- Database failures (500 answers) are not modelled. These include not-null and enum validation, foreign-key violations and unreachable connections. So a create that the database would refuse, such as a task with no title, is modelled as succeeding.
- `createBoard` never sets `project_id`, which `src/models/Board.js` declares not-null. The model lets the create succeed with no project rather than modelling the database's refusal.
- `createBoard` and the membership handlers run without a transaction. The model still treats each as atomic: a partial write would only come from a database failure, which is left out.
- Foreign-key actions the database performs are left out: deleting a project or a board cascades, and deleting a user sets the board owner to null. The model's deletions touch only the rows the code deletes.
- Concurrency and isolation are left out. In particular the read-then-write uniqueness checks can race in the real system.
- Dates, timestamps and response shaping are left out: includes, attribute projections, password stripping and logging. A due date is an opaque integer.
- BoardMembers.FindMember: `findOne` without an order returns an unspecified matching row; the model picks the one with the greatest id. While pairs are unique there is only one.
- Tags.UpdateTag: `name` and `color` are taken as always present. An absent field would reach the database as undefined.
- Tasks.AssignUsers: the code calls a `setAssignees` helper, but `src/models/associations.js` defines only a single `assignee` association, so no such helper exists. The model gives the call the meaning its name states: replace the task's assignees in a task-to-user link table.
- Tasks.MoveTask: a missing `listId` is treated as an unknown list, which is how the lookup answers it.
- Tasks.CreateTask: the title and the tag ids are not checked against the database, just as the code does not check them. A `null` position is not distinguished from an absent one.
- Users.CreateUser: the new user's `is_active` is `true`; the user schema that sets this default is not part of this model.
- Primary keys are unbounded integers, standing for both the auto-increment and the UUID keys. Only key equality matters.
- String comparison for `ORDER BY name` is code-point order. Database collations are not modelled.

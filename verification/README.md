# Goal tracker: boards, roles and the soft-delete cascade

A Dafny model of the core of a Django REST goal-tracking backend. Users keep
goals in categories. Categories live on shared boards, and each board has a
roster of participants with roles (owner, writer, reader). Comments hang off
goals.

The model is one immutable `Store`: a map from id to record for each of
boards, categories, goals and comments, plus the BoardParticipant table as a
sequence of rows. Every request is a pure function from a store to either a
new store or an error kind (ValidationError, PermissionDenied,
NotAuthenticated, NotFound, ServerError). Each `transaction.atomic` block is
one such step, so a failed request leaves the store unchanged.

Modules follow the source files:

- `Outcomes` holds the error kinds, `Option` and `Result`.
- `Models` (goals/models.py) holds the records, the `Status` and `Priority`
  enumerations with their integer codes, the title limit, and the two store
  invariants. `Valid` says board, category and goal keys resolve, ids come
  from the sequences, and titles fit. `CascadeClosed` says a deleted board has only deleted
  categories and a deleted category has only archived goals.
- `Permissions` (goals/permissions.py) holds IsAuthenticated and the author
  rule of CategoryPermission, GoalPermission and CommentPermission.
- `ParticipantTable` covers the two ORM statements of the roster update: the
  filtered delete, and `bulk_create(ignore_conflicts=True)`.
- `Serializers` (goals/serializers.py) holds the roster entry checks, on
  full entries and on entries as submitted, the roster update, the parent checks of the create serializers, the due-date
  check, the fields of a category update, the goal update's category check,
  and the creates.
- `Views` (goals/views.py) holds the querysets of every list and detail view,
  board creation, the board, category and goal updates, and the three
  destroy cascades. An update is a PUT when `partial` is false and a PATCH
  when it is true.
- `Lifecycle` puts every request behind one dispatcher. It holds the lemmas
  that span several operations:
  - the cascade invariant over any run of the modelled requests;
  - what disappears after a destroy;
  - what a non-participant cannot do;
  - when a detail lookup agrees with its list;
  - a walk-through of one board's life.

Facts that goals/models.py does not show are parameters (`Models.Config`):

- the role a board's creator is enrolled with;
- `BoardParticipant.editable_roles`;
- whether (board, user) is unique in BoardParticipant. This decides whether
  `bulk_create(ignore_conflicts=True)` skips a row.

The `Board` and `BoardParticipant` records are inferred from their uses.
`Reader` is the third BoardParticipant role; the shown code names only
owner and writer. The Board model's `is_deleted` default is taken to be
False.

The server's date (`today`) and the requester's identity are parameters.
`None` stands for an anonymous requester.

DRF runs a serializer's field validators in field order and collects their
ValidationErrors. A PermissionDenied raised by a field validator escapes at
once. With `fields = '__all__'`, the foreign key (board, category or goal)
is validated last. So a requester without a write role gets
PermissionDenied even when other fields were also invalid, and a deleted
parent gives ValidationError before the role is looked at
(`Serializers.CollectFieldErrors`).

The model follows the code:

- The roster update is not a diff. It deletes every participant row of the
  board except the requester's, then bulk-inserts the submitted rows.
- A PATCH without a `participants` list removes everybody but the
  requester (`validated_data.get('participants', [])`). A PUT without it is
  a ValidationError, because the nested serializer is a required field.
- A goal PUT must carry `title` and `category`, the goal's required
  fields; a board PUT must carry `participants`.
- The goal and comment detail querysets join over participant rows, so
  `get()` finds a row once per participant row of the requester on the
  board. Two rows for the same user and board make the detail view fail
  with a server error (MultipleObjectsReturned). Without a unique
  constraint, a roster that names a user twice produces exactly that
  state.
- Creating under a deleted board or category, or commenting on an archived
  goal, is a ValidationError, not NotFound.
- The shown object permissions are the author rule, not board roles. They do
  not distinguish reads from writes.
- The goal update's category check (serializers.py:115-117) has no role
  check, unlike goal creation. A goal's author can move the goal into a live
  category on a board where they have no participant row.
- A goal update may set any writable field, so a PATCH with status 4
  archives the goal without the destroy view.
- DRF skips a missing field of any serializer whose root is partial,
  nested serializers included. On a board PATCH a roster entry may
  therefore leave out `role`, although it is declared required, or `user`.
  The update then reads the missing key and fails (see Findings).

## Model

| member | source | states |
|---|---|---|
| Models.StatusFromCode | goals/models.py:31-35 | a submitted status integer is accepted exactly when it is 1 to 4 |
| Models.StatusCode | goals/models.py:31-35 | to_do, in_progress, done and archived are stored as 1 to 4, and decoding the code gives the status back |
| Models.PriorityFromCode | goals/models.py:37-41 | a submitted priority integer is accepted exactly when it is 1 to 4 |
| Models.PriorityCode | goals/models.py:37-41 | low, medium, high and critical are stored as 1 to 4, and decoding the code gives the priority back |
| Permissions.Authenticate | goals/permissions.py:10-20 | an anonymous requester is refused with NotAuthenticated, and a signed-in one passes as themselves |
| Permissions.CheckObjectAccess | goals/permissions.py:10-22 | access to an object is granted exactly when the requester is its author; anonymous gets NotAuthenticated, anyone else PermissionDenied |
| Permissions.AuthorRuleIgnoresClassAndMethod | goals/permissions.py:11-22 | the three classes give the same answer for every HTTP method, so reads and writes are gated alike |
| ParticipantTable.DeleteOthers | goals/serializers.py:43 | the delete keeps exactly the rows of other boards and the requester's rows on this board |
| ParticipantTable.InsertIgnoringConflict | goals/serializers.py:49 | a row is skipped exactly when the pair is unique and already has a row; otherwise it is appended |
| ParticipantTable.BulkCreate | goals/serializers.py:49 | existing rows stay as a prefix, only submitted rows are appended, and without a unique constraint all of them are |
| ParticipantTable.DeleteOthersRows | goals/serializers.py:43 | after the delete the requester keeps all their rows on the board, other users have none there, and other boards' rows are unchanged |
| ParticipantTable.BulkCreateRows | goals/serializers.py:49 | per pair: every submitted row is appended without a unique constraint; with one, an existing row wins, else the first submitted one |
| ParticipantTable.BulkCreateRowsPlain | goals/serializers.py:44-49 | without a unique constraint a pair's rows afterwards are its old rows followed by every submitted row for it |
| ParticipantTable.BulkCreateRowsUnique | goals/serializers.py:49 | with a unique constraint a pair with a row keeps exactly that row, and a pair without one gains only its first submitted row |
| ParticipantTable.BulkCreateKeepsUnique | goals/serializers.py:49 | under a unique constraint the bulk insert never makes a second row for a pair |
| ParticipantTable.BulkCreateCoversNews | goals/serializers.py:44-49 | every submitted (board, user) pair has a row afterwards, even when its own row was skipped |
| Serializers.ValidateUser | goals/serializers.py:26-29 | an entry naming the requester is a ValidationError, and any other user passes |
| Serializers.ValidateEntry | goals/serializers.py:22-29 | an entry is valid exactly when its role is editable, its user exists and it is not the requester |
| Serializers.ValidateRoster | goals/serializers.py:38 | the participants list is valid exactly when every entry is, and then no entry names the requester |
| Serializers.ValidateSubmittedEntry | goals/serializers.py:22-29 | an entry as submitted is valid exactly when each field present is valid (editable role, existing user other than the requester) and, on a PUT, both fields are present; on a PATCH a missing field is skipped |
| Serializers.ValidateSubmittedRoster | goals/serializers.py:38 | the submitted participants list is valid exactly when every submitted entry is |
| Serializers.SubmittedRosterAgrees | goals/serializers.py:22-38 | on entries that carry both fields, validating them as submitted, PATCH or PUT, agrees with validating the full entries |
| Serializers.IncompleteEntryRefused | goals/serializers.py:23-24 | validated with both fields required, a list holding an entry that leaves out a field is a ValidationError |
| Serializers.RosterRows | goals/serializers.py:43-49 | every row after the update was there before or is a submitted row of this board |
| Serializers.ApplyRosterUpdate | goals/serializers.py:40-55 | only the board and the participant table change; the title changes only to a non-empty given title; both invariants are kept |
| Serializers.RosterUpdateRows | goals/serializers.py:42-49 | other boards' rows and the requester's rows are exactly as before; other users on the board hold their submitted rows (only the first under a unique constraint) |
| Serializers.RosterUpdateKeepsUnique | goals/serializers.py:42-49 | under a unique constraint the roster update keeps at most one row per pair |
| Serializers.RosterUpdateMembership | goals/serializers.py:42-49 | afterwards the board's participants are the requester, if they were one, and exactly the submitted users |
| Serializers.CollectFieldErrors | goals/serializers.py:67-76 | the foreign key validator's PermissionDenied wins; otherwise any field error is a ValidationError; success needs every field valid |
| Serializers.ValidateBoard | goals/serializers.py:67-76 | a missing or deleted board is a ValidationError even for a non-member; a live board needs an owner or writer row, else PermissionDenied |
| Serializers.ValidateCategoryOnCreate | goals/serializers.py:91-102 | a missing or deleted category is a ValidationError; a live one needs an owner or writer row on its board, else PermissionDenied |
| Serializers.ValidateDueDate | goals/serializers.py:104-108 | a due date before today is a ValidationError; today, later, or none is accepted unchanged |
| Serializers.ValidateCategoryOnUpdateAsWritten | goals/serializers.py:115-117 | a deleted category is refused, and on success the validated category is None |
| Serializers.ValidateCategoryOnUpdate | goals/serializers.py:115-117 | the same refusal of a deleted category, and the category itself on success |
| Serializers.ValidateGoalForComment | goals/serializers.py:129-140 | an archived goal is a ValidationError whatever the role; otherwise an owner or writer row on the goal's board is needed, else PermissionDenied |
| Serializers.ValidateCategoryPatch | goals/serializers.py:58-80 | a category update is valid exactly when a PUT carries title and board, the title fits, and a submitted board is live and written to by the requester; a refused board role is PermissionDenied |
| Serializers.StatusOrDefault | goals/models.py:47 | an absent status is to_do, and a given one keeps its code |
| Serializers.PriorityOrDefault | goals/models.py:48-50 | an absent priority is medium, and a given one keeps its code |
| Serializers.CreateCategory | goals/serializers.py:58-76 | succeeds exactly for a valid title on a live board the requester writes to; adds one category with is_deleted defaulting to false; keeps both invariants |
| Serializers.CreateGoal | goals/serializers.py:83-108 | succeeds exactly for valid fields in a live category the requester writes to; refuses past due dates; defaults status to_do and priority medium; keeps both invariants |
| Serializers.CreateComment | goals/serializers.py:121-140 | succeeds exactly for non-blank text on a live goal the requester writes to; an archived goal is a ValidationError; keeps both invariants |
| Views.ListBoards | goals/views.py:44-45 | the join over participant rows returns exactly the live boards the requester participates in |
| Views.CategoryList | goals/views.py:84-86 | keeps exactly the categories the detail view finds (not deleted) on a board the requester has a row on; the board's own deletion is not looked at |
| Views.GoalList | goals/views.py:125-128 | keeps exactly the goals not archived, in a category the detail view finds, on a board the requester has a row on |
| Views.CommentList | goals/views.py:165-168 | keeps exactly the comments on goals not archived, on a board the requester has a row on; the category's deletion is not looked at |
| Views.BoardLookup | goals/views.py:52-53 | a board is found exactly when it exists and is not deleted, whoever asks |
| Views.CategoryLookup | goals/views.py:93-94 | a category is found exactly when it exists and is not deleted, whoever asks |
| Views.GoalLookup | goals/views.py:135-138 | a goal the list view does not show is NotFound, one the join yields more than once is a server error, and otherwise the goal is found; never an archived one |
| Views.CommentLookup | goals/views.py:176-179 | a comment the list view does not show is NotFound, one the join yields more than once is a server error, and otherwise the comment is found |
| Views.CreateBoard | goals/views.py:31-34 | in one step the board is added, not deleted, and the requester is enrolled with the default role, so it is in their board list |
| Views.UpdateBoard | goals/views.py:48-53 | on a body whose entries carry both fields: a deleted or missing board is NotFound; a PUT without `participants` or an invalid roster is a ValidationError; otherwise the roster update is applied, a PATCH without a list counting as empty |
| Views.UpdateBoardAsWritten | goals/serializers.py:40-49 | as written, a PATCH whose roster validates but holds an entry that leaves out a field ends in a server error; a body whose entries carry both fields is handled as by `Views.UpdateBoard` |
| Views.UpdateBoardRequest | goals/serializers.py:22-55 | with entries validated as full ones, an entry that leaves out a field is a ValidationError, no request ends in a server error, and a body whose entries carry both fields is handled as by `Views.UpdateBoard` |
| Views.MarkBoardDeleted | goals/views.py:55-59 | the board, exactly its categories, and exactly the goals in them are marked; nothing else changes; both invariants are kept |
| Views.DestroyBoard | goals/views.py:52-59 | a board is destroyed only when found, so a deleted board is NotFound |
| Views.MarkCategoryDeleted | goals/views.py:97-101 | only the category is marked deleted and only its own goals archived; its board and sibling categories are unchanged |
| Views.DestroyCategory | goals/views.py:93-101 | a category is destroyed only when found, so a deleted category is NotFound |
| Views.UpdateCategoryAsWritten | goals/serializers.py:58-80 | as written, a found category takes the submitted `is_deleted`; deleting it this way while it holds an unarchived goal opens the cascade |
| Views.UpdateCategory | goals/serializers.py:58-80 | with `is_deleted` read-only, the category stays live, only its title and board change, a submitted board is one the requester writes to, and both invariants are kept |
| Views.CreateGoalRequest | goals/views.py:104-108 | an anonymous requester is refused before the serializer runs |
| Views.ArchiveGoal | goals/views.py:141-143 | only the goal's status changes, to archived; comments and every other row stay |
| Views.DestroyGoal | goals/views.py:131-143 | anonymous is NotAuthenticated; a goal the requester cannot see is NotFound, one the join yields twice a server error; a non-author gets PermissionDenied; the author archives it |
| Views.UpdateGoalAsWritten | goals/serializers.py:111-117 | only a PATCH that names no category can succeed, and a valid update naming a live category ends in a server error |
| Views.UpdateGoal | goals/serializers.py:111-117 | the author moves a visible goal only into a live category; a deleted category is refused; a PUT without title or category is a ValidationError; the goal takes every submitted field (title, description, due date, status, priority) and keeps the rest; both invariants are kept |
| Lifecycle.Handle | goals/views.py:27-143 | every modelled request that succeeds keeps the store valid and keeps the cascade closed |
| Lifecycle.RunKeepsCascade | goals/views.py:55-143 | after any sequence of the modelled requests a deleted board has only deleted categories and a deleted category only archived goals |
| Lifecycle.CreateBoardKeepsUnique | goals/views.py:31-34 | enrolling the creator never makes a second row for a pair |
| Lifecycle.HandleKeepsUnique | goals/serializers.py:40-55 | under a unique constraint no request leaves two rows for one (board, user) pair |
| Lifecycle.VisibleRowsHaveLiveAncestors | goals/views.py:84-168 | with the cascade closed, listed categories, goals and comments all have live ancestors, although the comment queryset ignores the category |
| Lifecycle.DestroyedBoardDisappears | goals/views.py:55-59 | after a board is destroyed, no lookup or list shows it or its categories, goals or comments |
| Lifecycle.DestroyedCategoryDisappears | goals/views.py:97-101 | after a category is destroyed it and its goals and comments are hidden, and its board and siblings are unchanged |
| Lifecycle.DestroyIsNotRepeatable | goals/views.py:52-143 | destroying a board, category or goal a second time is NotFound |
| Lifecycle.DestroyedParentsRefuseChildren | goals/serializers.py:67-140 | a destroyed board takes no category, a destroyed category no goal, an archived goal no comment |
| Lifecycle.NonMemberCannotCreateOrFindGoals | goals/serializers.py:67-140 | a non-participant cannot create under a board, and cannot even find its goals to update or destroy them |
| Lifecycle.UpdateBoardMembership | goals/serializers.py:42-49 | afterwards the participants are the requester, if they were one, plus exactly the submitted users; a PATCH with no list leaves only the requester, and a PUT with no list fails |
| Lifecycle.UpdateBoardKeepsOtherRows | goals/serializers.py:43 | the requester's own rows and every other board's rows come through a roster update untouched |
| Lifecycle.ListFiltersIgnoreAncestorFlags | goals/views.py:84-168 | flagging a board deleted leaves the category list unchanged; flagging a category deleted leaves the comment list unchanged and removes the category's goals from the goal list |
| Lifecycle.LookupsAgreeWithListsWhenUnique | goals/views.py:125-179 | with a unique (board, user) constraint the goal and comment detail views find exactly what their lists show |
| Lifecycle.RepeatedInvitationBreaksLookup | goals/views.py:135-138 | without a unique constraint, a roster naming a user twice makes the goal detail view a server error for them while the list shows the goal |
| Lifecycle.GoalMoveCounterexample | goals/serializers.py:115-117 | moving a goal to a live category fails with a server error as written, by PATCH or PUT, and the PATCH succeeds once the category is returned |
| Lifecycle.GoalMoveNeedsNoRoleOnTarget | goals/serializers.py:115-117 | the author may move a visible goal into any live category, on a board where they hold no row, and the move does not enrol them there |
| Lifecycle.StatusPatchArchivesGoal | goals/serializers.py:111-117 | a PATCH setting status 4 archives the goal and removes it from the goal list |
| Lifecycle.RosterPatchCounterexample | goals/serializers.py:45-47 | a PATCH of the example board with one entry naming user 2 and no role is a server error as written and a ValidationError once entries are validated as full ones; as a PUT it is a ValidationError |
| Lifecycle.CategoryDeleteByUpdateCounterexample | goals/views.py:89-101 | as written, a PATCH setting `is_deleted` opens the cascade, hides the goal and still lists its comment; with `is_deleted` read-only the category stays live and the cascade closed |
| Lifecycle.SprintRoster | goals/views.py:31-34 | after creating a board and inviting a writer and a reader, the writer may write and the reader is a member who may not |
| Lifecycle.SprintContent | goals/serializers.py:67-140 | on a live board where one user writes and another reads: writer may create, reader may not; a goal due yesterday is refused; board destroy deletes the category, archives the goal, and blocks new goals |
| Lifecycle.BoardWalkthrough | goals/views.py:31-59 | from no boards, board creation and the invitations succeed and leave a valid store, and the whole SprintContent scenario then holds on that board |

## Findings

| source | as written | input that shows it | evidently intended | confidence | as-written member | corrected member |
|---|---|---|---|---|---|---|
| goals/serializers.py:115-117 | `GoalSerializer.validate_category` does not return its argument on success, so the validated category is None and the save writes null into the NOT NULL foreign key | the author updates goal 0 of `Lifecycle.ExampleBoard` with category 1, which is live | return the category, so the goal moves to it; like the written code, the corrected update adds no role check on the target board (`Lifecycle.GoalMoveNeedsNoRoleOnTarget`) | medium, not executed | Views.UpdateGoalAsWritten | Views.UpdateGoal |
| goals/serializers.py:58-80 | GoalCategorySerializer inherits `read_only_fields` without `is_deleted`, and GoalCategoryView has no perform_update, so an update can soft-delete a category without archiving its goals; the comment list, which ignores the category, still shows their comments | owner 7 PATCHes category 0 of `Lifecycle.ExampleBoard` with `is_deleted` true | `is_deleted` read-only, as in BoardSerializer, leaving deletion to the destroy view's cascade | medium, not executed | Views.UpdateCategoryAsWritten | Views.UpdateCategory |
| goals/serializers.py:45-47 | the nested entries share the partial root, so on a PATCH an entry without `role` (declared `required=True`) or without `user` validates, and building its row reads the missing key: a KeyError, the transaction rolls back, and the request is a server error | owner 7 PATCHes board 0 of `Lifecycle.ExampleBoard` with the one entry `{"user": <user 2>}` (`Lifecycle.RosterPatchCounterexample`) | every entry needs both fields, PATCH or PUT, so an incomplete one is a ValidationError | medium, not executed | Views.UpdateBoardAsWritten | Views.UpdateBoardRequest |

`Lifecycle.Handle` uses the corrected `Views.UpdateGoal`, `Views.UpdateCategory` and `Views.UpdateBoardRequest`.

## Left out

- Pagination, ordering, search, the filter backends and `GoalDateFilter`. The filter classes are not part of this model. Lists are sets of ids, so the duplicates a join can produce are not modelled.
- BoardPermission, GoalCategoryPermission and GoalCommentPermission: the views name them, but they are not in the permission module. Board and category detail operations, category creation (GoalCategoryCreateView) and comment creation run as if they granted access to any signed-in user.
- Views.UpdateBoard: does not check BoardPermission, for the reason above.
- Views.UpdateBoardAsWritten: does not check BoardPermission, for the reason above.
- Views.UpdateBoardRequest: does not check BoardPermission, for the reason above.
- Views.DestroyBoard: does not check BoardPermission, for the reason above.
- Views.DestroyCategory: does not check GoalCategoryPermission, for the reason above.
- Views.UpdateCategory: does not check GoalCategoryPermission, for the reason above.
- Serializers.CreateCategory: does not check GoalCategoryPermission, for the reason above.
- Models.Valid: does not require the user foreign keys (category, goal and comment authors, participant users) to name a row of `users`. A requester is taken to be a signed-in user as given.
- Views.UpdateBoard: does not require the board's own fields on a PUT; the Board model is not part of this model.
- Comment update and destroy. Their permission class is not part of this model, and destroy is a physical delete with no cascade.
- Retrieve responses, UserSerializer and the `__str__` methods. They are display only.
- `GoalCommentSerializer.validate_goal` is left out because it never runs: `goal` is read-only in that serializer.
- Views.CreateBoard: accepts any title. The Board model's field constraints are not part of this model.
- Serializers.CreateCategory: takes titles as already stripped of surrounding whitespace. DRF's trimming of CharField input is not modelled. The same holds for goal titles and comment text.
- Timestamps (`created`, `updated`), physical deletion with PROTECT or CASCADE, concurrency, and transaction isolation. Each atomic block is one step.
- The admin configuration and the user profile endpoint test are not part of the goal tracker's core.

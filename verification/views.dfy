/** The views of goals/views.py: what each list and detail view lets a
    requester see (its get_queryset), board creation, the board roster
    update, the category and goal updates, and the soft-delete cascades of
    the destroy views. An update is a PUT when `partial` is false and a
    PATCH when it is true.

    BoardView, GoalCategoryCreateView and GoalCategoryView name permission
    classes that are not part of this model, so their operations run as if
    those had granted access; GoalView's GoalPermission is the author rule
    of Permissions. */
module Views {
  import opened Outcomes
  import opened Models
  import opened Permissions
  import opened ParticipantTable
  import opened Serializers

  // ---------------------------------------------------------------------
  // Querysets

  /** BoardListView: boards the requester participates in, not deleted. */
  predicate BoardListed(s: Store, u: UserId, b: BoardId) {
    b in s.boards && IsMember(s, b, u) && !s.boards[b].isDeleted
  }

  /** GoalCategoryListView: categories on the requester's boards, not
      deleted. */
  predicate CategoryListed(s: Store, u: UserId, c: CategoryId) {
    c in s.categories && IsMember(s, s.categories[c].board, u) && !s.categories[c].isDeleted
  }

  /** GoalCategoryView: every category that is not deleted, whoever asks. */
  predicate CategoryFound(s: Store, c: CategoryId) {
    c in s.categories && !s.categories[c].isDeleted
  }

  /** GoalListView and GoalView: goals not archived, in a category not
      deleted, on a board the requester participates in. The queryset is a
      join, so it yields such a goal once per participant row of the
      requester on that board. */
  predicate GoalVisible(s: Store, u: UserId, g: GoalId) {
    && g in s.goals
    && s.goals[g].status != Archived
    && s.goals[g].category in s.categories
    && !s.categories[s.goals[g].category].isDeleted
    && IsMember(s, s.categories[s.goals[g].category].board, u)
  }

  /** GoalCommentListView and GoalCommentView: comments on goals not
      archived, on a board the requester participates in. The category's
      deletion is not looked at. As for goals, the join yields a comment
      once per participant row of the requester on the board. */
  predicate CommentVisible(s: Store, u: UserId, k: CommentId) {
    && k in s.comments
    && s.comments[k].goal in s.goals
    && s.goals[s.comments[k].goal].status != Archived
    && s.goals[s.comments[k].goal].category in s.categories
    && IsMember(s, s.categories[s.goals[s.comments[k].goal].category].board, u)
  }

  /** A visible goal that the detail queryset yields more than once: the
      requester has several participant rows on its board, so `get()`
      raises MultipleObjectsReturned. */
  predicate GoalAmbiguous(s: Store, u: UserId, g: GoalId) {
    GoalVisible(s, u, g) && |RowsOf(s.participants, s.categories[s.goals[g].category].board, u)| > 1
  }

  /** A visible comment that the detail queryset yields more than once. */
  predicate CommentAmbiguous(s: Store, u: UserId, k: CommentId) {
    CommentVisible(s, u, k) && |RowsOf(s.participants, s.categories[s.goals[s.comments[k].goal].category].board, u)| > 1
  }

  /** BoardListView.get_queryset evaluated as the join it is: walk the
      participant rows of the requester and collect their live boards. */
  method ListBoards(s: Store, u: UserId) returns (ids: set<BoardId>)
    ensures forall b :: b in ids <==> BoardListed(s, u, b)
  {
    ids := {};
    var i := 0;
    while i < |s.participants|
      invariant 0 <= i <= |s.participants|
      invariant forall b :: b in ids <==>
        b in s.boards && !s.boards[b].isDeleted
        && exists j :: 0 <= j < i && s.participants[j].board == b && s.participants[j].user == u
    {
      var p := s.participants[i];
      if p.user == u && p.board in s.boards && !s.boards[p.board].isDeleted {
        ids := ids + {p.board};
      }
      i := i + 1;
    }
    forall b | BoardListed(s, u, b)
      ensures b in ids
    {
      var p :| p in s.participants && p.board == b && p.user == u;
      var j :| 0 <= j < |s.participants| && s.participants[j] == p;
    }
  }

  /** GoalCategoryListView.get_queryset: the requester's share of what the
      category detail view finds. */
  function CategoryList(s: Store, u: UserId): (r: set<CategoryId>)
    ensures forall c :: c in r <==> CategoryLookup(s, c).Ok? && IsMember(s, s.categories[c].board, u)
  {
    set c | c in s.categories && CategoryListed(s, u, c)
  }

  /** GoalListView.get_queryset, as a set: goals not archived whose
      category the category detail view finds, on the requester's boards. */
  function GoalList(s: Store, u: UserId): (r: set<GoalId>)
    ensures forall g :: g in r <==>
      && g in s.goals && s.goals[g].status != Archived
      && CategoryLookup(s, s.goals[g].category).Ok?
      && IsMember(s, s.categories[s.goals[g].category].board, u)
  {
    set g | g in s.goals && GoalVisible(s, u, g)
  }

  /** GoalCommentListView.get_queryset, as a set: comments on goals not
      archived, on the requester's boards; the category may be deleted. */
  function CommentList(s: Store, u: UserId): (r: set<CommentId>)
    ensures forall k :: k in r <==>
      && k in s.comments && s.comments[k].goal in s.goals
      && s.goals[s.comments[k].goal].status != Archived
      && s.goals[s.comments[k].goal].category in s.categories
      && IsMember(s, s.categories[s.goals[s.comments[k].goal].category].board, u)
  {
    set k | k in s.comments && CommentVisible(s, u, k)
  }

  /** BoardView's object lookup. */
  function BoardLookup(s: Store, b: BoardId): (r: Result<Board>)
    ensures r.Ok? <==> BoardFound(s, b)
    ensures r.Ok? ==> r.value == s.boards[b] && !r.value.isDeleted
    ensures r.Err? ==> r.error == NotFound
  {
    if b in s.boards && !s.boards[b].isDeleted then Ok(s.boards[b]) else Err(NotFound)
  }

  /** GoalCategoryView's object lookup. */
  function CategoryLookup(s: Store, c: CategoryId): (r: Result<Category>)
    ensures r.Ok? <==> CategoryFound(s, c)
    ensures r.Ok? ==> r.value == s.categories[c] && !r.value.isDeleted
    ensures r.Err? ==> r.error == NotFound
  {
    if c in s.categories && !s.categories[c].isDeleted then Ok(s.categories[c]) else Err(NotFound)
  }

  /** GoalView's object lookup, `queryset.get(pk=g)` on the same queryset
      as GoalListView: a goal the list does not show is not found, and one
      the join yields twice is a server error. */
  function GoalLookup(s: Store, u: UserId, g: GoalId): (r: Result<Goal>)
    ensures r == Err(NotFound) <==> g !in GoalList(s, u)
    ensures r == Err(ServerError) <==> GoalAmbiguous(s, u, g)
    ensures r.Ok? <==> g in GoalList(s, u) && !GoalAmbiguous(s, u, g)
    ensures r.Ok? ==> r.value == s.goals[g] && r.value.status != Archived
  {
    if !GoalVisible(s, u, g) then Err(NotFound)
    else if GoalAmbiguous(s, u, g) then Err(ServerError)
    else Ok(s.goals[g])
  }

  /** GoalCommentView's object lookup on the same queryset as
      GoalCommentListView, with the same two failures. */
  function CommentLookup(s: Store, u: UserId, k: CommentId): (r: Result<Comment>)
    ensures r == Err(NotFound) <==> k !in CommentList(s, u)
    ensures r == Err(ServerError) <==> CommentAmbiguous(s, u, k)
    ensures r.Ok? <==> k in CommentList(s, u) && !CommentAmbiguous(s, u, k)
    ensures r.Ok? ==> r.value == s.comments[k]
  {
    if !CommentVisible(s, u, k) then Err(NotFound)
    else if CommentAmbiguous(s, u, k) then Err(ServerError)
    else Ok(s.comments[k])
  }

  // ---------------------------------------------------------------------
  // Boards

  /** BoardCreateView: IsAuthenticated, then one atomic step that saves the
      board and enrolls the requester on it with the default role. */
  function CreateBoard(s: Store, cfg: Config, requester: Option<UserId>, title: string): (r: Result<Created>)
    requires Valid(s)
    ensures r.Ok? <==> requester.Some?
    ensures r.Err? ==> r.error == NotAuthenticated
    ensures r.Ok? ==>
      var t := r.value.store; var id := r.value.id; var u := requester.value;
      && id !in s.boards
      && t.boards == s.boards[id := Board(title, false)]
      && t.participants == s.participants + [Participant(id, u, cfg.defaultRole)]
      && t == s.(boards := t.boards, participants := t.participants, nextBoard := t.nextBoard)
      && BoardListed(t, u, id)
      && Valid(t)
      && (CascadeClosed(s) ==> CascadeClosed(t))
  {
    var u :- Authenticate(requester);
    var id := s.nextBoard;
    var t := s.(boards := s.boards[id := Board(title, false)],
                participants := s.participants + [Participant(id, u, cfg.defaultRole)],
                nextBoard := id + 1);
    assert Participant(id, u, cfg.defaultRole) in t.participants;
    Ok(Created(t, id))
  }

  /** BoardView update on a body whose entries all carry both fields: look
      the board up, validate the body, then apply the roster update.
      `participants` is a required field, so a PUT without it is refused; a
      PATCH without it counts as an empty list. `UpdateBoardAsWritten` and
      `UpdateBoardRequest` take the body as submitted. */
  function UpdateBoard(s: Store, cfg: Config, requester: UserId, id: BoardId, title: Option<string>,
                       participants: Option<seq<RosterEntry>>, partial: bool): (r: Result<Store>)
    ensures r == Err(NotFound) <==> !BoardFound(s, id)
    ensures BoardFound(s, id) && !partial && participants.None? ==> r == Err(ValidationError)
    ensures r.Ok? <==>
      && BoardFound(s, id)
      && (partial || participants.Some?)
      && ValidateRoster(s, cfg, requester, participants.GetOr([])).Ok?
    ensures r.Err? ==> r.error == NotFound || r.error == ValidationError
    ensures r.Ok? ==>
      && (forall e :: e in participants.GetOr([]) ==> e.user != requester)
      && r.value == ApplyRosterUpdate(s, cfg, requester, id, title, participants.GetOr([]))
  {
    var _ :- BoardLookup(s, id);
    if !partial && participants.None? then Err(ValidationError)
    else
      var entries :- ValidateRoster(s, cfg, requester, participants.GetOr([]));
      Ok(ApplyRosterUpdate(s, cfg, requester, id, title, entries))
  }

  /** BoardView update exactly as written, on the body as submitted. The
      nested entries share the partial root, so on a PATCH an entry that
      leaves out `user` or `role` passes validation; building its row then
      reads the missing key, the KeyError rolls the transaction back, and
      the request ends in a server error. */
  function UpdateBoardAsWritten(s: Store, cfg: Config, requester: UserId, id: BoardId, title: Option<string>,
                                participants: Option<seq<SubmittedEntry>>, partial: bool): (r: Result<Store>)
    ensures r == Err(NotFound) <==> !BoardFound(s, id)
    ensures r.Ok? ==> forall e :: e in participants.GetOr([]) ==> Complete(e)
    ensures BoardFound(s, id) && partial
      && ValidateSubmittedRoster(s, cfg, requester, participants.GetOr([]), true).Ok?
      && (exists e :: e in participants.GetOr([]) && !Complete(e))
      ==> r == Err(ServerError)
    ensures (forall e :: e in participants.GetOr([]) ==> Complete(e)) ==>
      r == UpdateBoard(s, cfg, requester, id, title, EntriesOf(participants), partial)
  {
    var _ :- BoardLookup(s, id);
    if !partial && participants.None? then Err(ValidationError)
    else
      var entries :- ValidateSubmittedRoster(s, cfg, requester, participants.GetOr([]), partial);
      if exists e :: e in entries && !Complete(e) then Err(ServerError)
      else
        SubmittedRosterAgrees(s, cfg, requester, entries, partial);
        ValidEntriesSkipRequester(s, cfg, requester, entries, partial);
        Ok(ApplyRosterUpdate(s, cfg, requester, id, title, Entries(entries)))
  }

  /** BoardView update with every nested entry validated as a full entry,
      PATCH or PUT, as `required=True` on `role` asks: an entry that leaves
      out a field is a ValidationError, no request ends in a server error,
      and a body whose entries all carry both fields is handled as by
      `UpdateBoard`. */
  function UpdateBoardRequest(s: Store, cfg: Config, requester: UserId, id: BoardId, title: Option<string>,
                              participants: Option<seq<SubmittedEntry>>, partial: bool): (r: Result<Store>)
    ensures r == Err(NotFound) <==> !BoardFound(s, id)
    ensures r.Err? ==> r.error == NotFound || r.error == ValidationError
    ensures BoardFound(s, id) && (exists e :: e in participants.GetOr([]) && !Complete(e)) ==>
      r == Err(ValidationError)
    ensures r.Ok? ==> forall e :: e in participants.GetOr([]) ==> Complete(e)
    ensures (forall e :: e in participants.GetOr([]) ==> Complete(e)) ==>
      r == UpdateBoard(s, cfg, requester, id, title, EntriesOf(participants), partial)
  {
    var _ :- BoardLookup(s, id);
    if !partial && participants.None? then Err(ValidationError)
    else
      IncompleteEntryRefused(s, cfg, requester, participants.GetOr([]));
      var entries :- ValidateSubmittedRoster(s, cfg, requester, participants.GetOr([]), false);
      SubmittedRosterAgrees(s, cfg, requester, entries, false);
      ValidEntriesSkipRequester(s, cfg, requester, entries, false);
      Ok(ApplyRosterUpdate(s, cfg, requester, id, title, Entries(entries)))
  }

  /** BoardView.perform_destroy, one atomic step: the board, every category
      on it, and every goal in those categories. Nothing else changes. */
  function MarkBoardDeleted(s: Store, id: BoardId): (r: Store)
    requires id in s.boards
    ensures r == s.(boards := r.boards, categories := r.categories, goals := r.goals)
    ensures r.boards == s.boards[id := s.boards[id].(isDeleted := true)]
    ensures r.categories.Keys == s.categories.Keys
    ensures forall c :: c in s.categories ==>
      r.categories[c] == if s.categories[c].board == id then s.categories[c].(isDeleted := true) else s.categories[c]
    ensures r.goals.Keys == s.goals.Keys
    ensures forall g :: g in s.goals ==>
      r.goals[g] == if GoalOnBoard(s, g, id) then s.goals[g].(status := Archived) else s.goals[g]
    ensures Valid(s) ==> Valid(r)
    ensures CascadeClosed(s) ==> CascadeClosed(r)
  {
    var boards := s.boards[id := s.boards[id].(isDeleted := true)];
    var categories := map c | c in s.categories ::
      if s.categories[c].board == id then s.categories[c].(isDeleted := true) else s.categories[c];
    var goals := map g | g in s.goals ::
      if GoalOnBoard(s, g, id) then s.goals[g].(status := Archived) else s.goals[g];
    var r := s.(boards := boards, categories := categories, goals := goals);
    BoardCascadeKeepsInvariants(s, id, r);
    r
  }

  /** A store that differs from `s` only by the board cascade of `id` keeps
      both invariants of `s`. */
  lemma BoardCascadeKeepsInvariants(s: Store, id: BoardId, r: Store)
    requires id in s.boards
    requires r == s.(boards := r.boards, categories := r.categories, goals := r.goals)
    requires r.boards == s.boards[id := s.boards[id].(isDeleted := true)]
    requires r.categories.Keys == s.categories.Keys
    requires forall c :: c in s.categories ==>
      r.categories[c] == if s.categories[c].board == id then s.categories[c].(isDeleted := true) else s.categories[c]
    requires r.goals.Keys == s.goals.Keys
    requires forall g :: g in s.goals ==>
      r.goals[g] == if GoalOnBoard(s, g, id) then s.goals[g].(status := Archived) else s.goals[g]
    ensures Valid(s) ==> Valid(r)
    ensures CascadeClosed(s) ==> CascadeClosed(r)
  {
  }

  /** The goal's category is on board `b` (`category__board`). */
  predicate GoalOnBoard(s: Store, g: GoalId, b: BoardId)
    requires g in s.goals
  {
    s.goals[g].category in s.categories && s.categories[s.goals[g].category].board == b
  }

  /** BoardView destroy: a board already deleted is not found again. */
  function DestroyBoard(s: Store, id: BoardId): (r: Result<Store>)
    ensures r.Ok? <==> BoardFound(s, id)
    ensures r.Err? ==> r.error == NotFound
    ensures r.Ok? ==> r.value == MarkBoardDeleted(s, id)
  {
    var _ :- BoardLookup(s, id);
    Ok(MarkBoardDeleted(s, id))
  }

  // ---------------------------------------------------------------------
  // Categories

  /** GoalCategoryView.perform_destroy, one atomic step: the category is
      marked deleted and its own goals archived. Its board and every other
      category are unchanged. */
  function MarkCategoryDeleted(s: Store, id: CategoryId): (r: Store)
    requires id in s.categories
    ensures r == s.(categories := r.categories, goals := r.goals)
    ensures r.categories == s.categories[id := s.categories[id].(isDeleted := true)]
    ensures r.goals.Keys == s.goals.Keys
    ensures forall g :: g in s.goals ==>
      r.goals[g] == if s.goals[g].category == id then s.goals[g].(status := Archived) else s.goals[g]
    ensures Valid(s) ==> Valid(r)
    ensures CascadeClosed(s) ==> CascadeClosed(r)
  {
    var goals := map g | g in s.goals ::
      if s.goals[g].category == id then s.goals[g].(status := Archived) else s.goals[g];
    s.(categories := s.categories[id := s.categories[id].(isDeleted := true)], goals := goals)
  }

  /** GoalCategoryView destroy: a category already deleted is not found
      again. */
  function DestroyCategory(s: Store, id: CategoryId): (r: Result<Store>)
    ensures r.Ok? <==> CategoryFound(s, id)
    ensures r.Err? ==> r.error == NotFound
    ensures r.Ok? ==> r.value == MarkCategoryDeleted(s, id)
  {
    var _ :- CategoryLookup(s, id);
    Ok(MarkCategoryDeleted(s, id))
  }

  /** GoalCategoryView update exactly as written: the lookup, then
      GoalCategorySerializer, whose `is_deleted` is writable. A category
      marked deleted this way keeps its goals as they were, so the cascade
      is no longer closed. */
  function UpdateCategoryAsWritten(s: Store, requester: UserId, id: CategoryId, patch: CategoryPatch, partial: bool)
    : (r: Result<Store>)
    requires Valid(s)
    ensures r == Err(NotFound) <==> !CategoryFound(s, id)
    ensures r.Ok? <==> CategoryFound(s, id) && ValidateCategoryPatch(s, requester, s.categories[id], patch, partial).Ok?
    ensures r.Ok? ==>
      var t := r.value;
      && t == s.(categories := t.categories)
      && t.categories.Keys == s.categories.Keys
      && (forall c :: c in s.categories && c != id ==> t.categories[c] == s.categories[c])
      && t.categories[id].isDeleted == patch.isDeleted.GetOr(false)
      && t.categories[id].author == s.categories[id].author
      && Valid(t)
    ensures r.Ok? && patch.isDeleted == Some(true) ==>
      forall g :: g in s.goals && s.goals[g].category == id && s.goals[g].status != Archived ==>
        !CascadeClosed(r.value)
  {
    var category :- CategoryLookup(s, id);
    var b :- ValidateCategoryPatch(s, requester, category, patch, partial);
    var c := category.(title := patch.title.GetOr(category.title), board := b,
                       isDeleted := patch.isDeleted.GetOr(category.isDeleted));
    Ok(s.(categories := s.categories[id := c]))
  }

  /** GoalCategoryView update with `is_deleted` read-only, as it is in
      BoardSerializer: a category is only renamed or moved to a live board
      the requester writes to, and deleting it is left to the destroy view's
      cascade. */
  function UpdateCategory(s: Store, requester: UserId, id: CategoryId, patch: CategoryPatch, partial: bool)
    : (r: Result<Store>)
    requires Valid(s)
    ensures r == Err(NotFound) <==> !CategoryFound(s, id)
    ensures r.Ok? <==> CategoryFound(s, id) && ValidateCategoryPatch(s, requester, s.categories[id], patch, partial).Ok?
    ensures r.Ok? ==>
      var t := r.value;
      && t == s.(categories := t.categories)
      && t.categories.Keys == s.categories.Keys
      && (forall c :: c in s.categories && c != id ==> t.categories[c] == s.categories[c])
      && CategoryFound(t, id)
      && t.categories[id].title == patch.title.GetOr(s.categories[id].title)
      && t.categories[id].board == patch.board.GetOr(s.categories[id].board)
      && t.categories[id].author == s.categories[id].author
      && Valid(t)
      && (CascadeClosed(s) ==> CascadeClosed(t))
  {
    var category :- CategoryLookup(s, id);
    var b :- ValidateCategoryPatch(s, requester, category, patch, partial);
    var c := category.(title := patch.title.GetOr(category.title), board := b);
    Ok(s.(categories := s.categories[id := c]))
  }

  // ---------------------------------------------------------------------
  // Goals

  /** GoalCreateView: GoalPermission's IsAuthenticated, then the create
      serializer. */
  function CreateGoalRequest(s: Store, requester: Option<UserId>, today: Date, input: GoalInput): (r: Result<Created>)
    requires Valid(s)
    ensures requester.None? ==> r == Err(NotAuthenticated)
    ensures requester.Some? ==> r == CreateGoal(s, requester.value, today, input)
  {
    var u :- Authenticate(requester);
    CreateGoal(s, u, today, input)
  }

  /** GoalView.perform_destroy: only the goal's status changes, to
      archived. Its comments stay. */
  function ArchiveGoal(s: Store, id: GoalId): (r: Store)
    requires id in s.goals
    ensures r == s.(goals := s.goals[id := s.goals[id].(status := Archived)])
    ensures Valid(s) ==> Valid(r)
    ensures CascadeClosed(s) ==> CascadeClosed(r)
  {
    s.(goals := s.goals[id := s.goals[id].(status := Archived)])
  }

  /** GoalView destroy: IsAuthenticated, the lookup (a goal already archived
      is not found), the author rule, then the archive. */
  function DestroyGoal(s: Store, requester: Option<UserId>, id: GoalId): (r: Result<Store>)
    ensures requester.None? ==> r == Err(NotAuthenticated)
    ensures requester.Some? && !GoalVisible(s, requester.value, id) ==> r == Err(NotFound)
    ensures requester.Some? && GoalAmbiguous(s, requester.value, id) ==> r == Err(ServerError)
    ensures requester.Some? && GoalVisible(s, requester.value, id) && !GoalAmbiguous(s, requester.value, id)
      && s.goals[id].author != requester.value
      ==> r == Err(PermissionDenied)
    ensures r.Ok? <==>
      && requester.Some? && GoalVisible(s, requester.value, id) && !GoalAmbiguous(s, requester.value, id)
      && s.goals[id].author == requester.value
    ensures r.Ok? ==> r.value == ArchiveGoal(s, id)
  {
    var u :- Authenticate(requester);
    var goal :- GoalLookup(s, u, id);
    var _ :- CheckObjectAccess(GoalPermission, requester, Delete, goal.author);
    Ok(ArchiveGoal(s, id))
  }

  /** GoalView update exactly as written. On success validate_category
      returns nothing, so a request that names a category saves the goal
      with no category, which the NOT NULL foreign key refuses. A PUT must
      name the category, so no PUT succeeds. */
  function UpdateGoalAsWritten(s: Store, requester: Option<UserId>, today: Date, id: GoalId, patch: GoalPatch,
                               partial: bool): (r: Result<Store>)
    ensures requester.None? ==> r == Err(NotAuthenticated)
    ensures requester.Some? && !GoalVisible(s, requester.value, id) ==> r == Err(NotFound)
    ensures r.Ok? ==> partial && patch.category.None?
    ensures requester.Some? && GoalVisible(s, requester.value, id) && !GoalAmbiguous(s, requester.value, id)
      && s.goals[id].author == requester.value
      && PatchFieldsOk(today, partial, patch) && patch.category.Some? && CategoryFound(s, patch.category.value)
      ==> r == Err(ServerError)
  {
    var u :- Authenticate(requester);
    var goal :- GoalLookup(s, u, id);
    var _ :- CheckObjectAccess(GoalPermission, requester, if partial then Patch else Put, goal.author);
    var validated: Result<Option<CategoryId>> :=
      if patch.category.None? then Ok(Some(goal.category))
      else ValidateCategoryOnUpdateAsWritten(s, patch.category.value);
    if !PatchFieldsOk(today, partial, patch) || validated.Err? then Err(ValidationError)
    else if validated.value.None? then Err(ServerError)
    else Ok(s.(goals := s.goals[id := PatchGoal(goal, patch, validated.value.value)]))
  }

  /** GoalView update with validate_category returning the category: the
      goal moves to a category only when that category is not deleted, and
      the cascade invariant is kept. */
  function UpdateGoal(s: Store, requester: Option<UserId>, today: Date, id: GoalId, patch: GoalPatch,
                      partial: bool): (r: Result<Store>)
    requires Valid(s)
    ensures requester.None? ==> r == Err(NotAuthenticated)
    ensures requester.Some? && !GoalVisible(s, requester.value, id) ==> r == Err(NotFound)
    ensures requester.Some? && GoalAmbiguous(s, requester.value, id) ==> r == Err(ServerError)
    ensures requester.Some? && GoalVisible(s, requester.value, id) && !GoalAmbiguous(s, requester.value, id)
      && s.goals[id].author != requester.value
      ==> r == Err(PermissionDenied)
    ensures requester.Some? && GoalVisible(s, requester.value, id) && !GoalAmbiguous(s, requester.value, id)
      && s.goals[id].author == requester.value && !GoalFieldsPresent(partial, patch)
      ==> r == Err(ValidationError)
    ensures r.Ok? <==>
      && requester.Some? && GoalVisible(s, requester.value, id) && !GoalAmbiguous(s, requester.value, id)
      && s.goals[id].author == requester.value
      && PatchFieldsOk(today, partial, patch)
      && (patch.category.None? || CategoryFound(s, patch.category.value))
    ensures patch.category.Some? && CategoryIsDeleted(s, patch.category.value) ==> r.Err?
    ensures r.Ok? ==>
      var t := r.value;
      && t == s.(goals := t.goals)
      && t.goals.Keys == s.goals.Keys
      && (forall g :: g in s.goals && g != id ==> t.goals[g] == s.goals[g])
      && t.goals[id].category == patch.category.GetOr(s.goals[id].category)
      && t.goals[id].author == s.goals[id].author
      && t.goals[id].title == patch.title.GetOr(s.goals[id].title)
      && t.goals[id].dueDate == patch.dueDate.GetOr(s.goals[id].dueDate)
      && t.goals[id].description == patch.description.GetOr(s.goals[id].description)
      && (patch.status.None? ==> t.goals[id].status == s.goals[id].status)
      && (patch.status.Some? ==> StatusCode(t.goals[id].status) == patch.status.value)
      && (patch.priority.None? ==> t.goals[id].priority == s.goals[id].priority)
      && (patch.priority.Some? ==> PriorityCode(t.goals[id].priority) == patch.priority.value)
      && Valid(t)
      && (CascadeClosed(s) ==> CascadeClosed(t))
  {
    var u :- Authenticate(requester);
    var goal :- GoalLookup(s, u, id);
    var _ :- CheckObjectAccess(GoalPermission, requester, if partial then Patch else Put, goal.author);
    var validated: Result<CategoryId> :=
      if patch.category.None? then Ok(goal.category) else ValidateCategoryOnUpdate(s, patch.category.value);
    if !PatchFieldsOk(today, partial, patch) || validated.Err? then Err(ValidationError)
    else
      var h := PatchGoal(goal, patch, validated.value);
      GoalReplaceKeepsInvariants(s, id, h);
      Ok(s.(goals := s.goals[id := h]))
  }

  /** Writing over one goal with a goal of a live category and a title of
      the allowed length keeps both invariants of `s`. */
  lemma GoalReplaceKeepsInvariants(s: Store, id: GoalId, h: Goal)
    requires id in s.goals
    requires CategoryFound(s, h.category) && |h.title| <= TitleMaxLength
    ensures Valid(s) ==> Valid(s.(goals := s.goals[id := h]))
    ensures CascadeClosed(s) ==> CascadeClosed(s.(goals := s.goals[id := h]))
  {
  }
}

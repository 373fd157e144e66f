/** The goal tracker as a whole: every modelled request, dispatched on one
    store, and the properties that relate several operations: the cascade
    invariant is kept by every modelled request and every run of them,
    deleted and archived rows disappear from every view, what a
    non-participant cannot do, when a detail lookup agrees with its list,
    and the walk-through of a board's life. */
module Lifecycle {
  import opened Outcomes
  import opened Models
  import opened Permissions
  import opened ParticipantTable
  import opened Serializers
  import opened Views

  /** The mutating requests of the model. `requester` is whoever sent the
      request, `None` when anonymous, on views that authenticate; `user` is
      the signed-in sender on views whose permission class is not part of
      this model. `partial` tells a PATCH from a PUT. */
  datatype Request =
    | NewBoard(requester: Option<UserId>, title: string)
    | EditBoard(user: UserId, board: BoardId, newTitle: Option<string>, roster: Option<seq<SubmittedEntry>>,
                partial: bool)
    | RemoveBoard(board: BoardId)
    | NewCategory(user: UserId, categoryInput: CategoryInput)
    | EditCategory(user: UserId, category: CategoryId, categoryPatch: CategoryPatch, partial: bool)
    | RemoveCategory(category: CategoryId)
    | NewGoal(requester: Option<UserId>, goalInput: GoalInput)
    | EditGoal(requester: Option<UserId>, goal: GoalId, patch: GoalPatch, partial: bool)
    | RemoveGoal(requester: Option<UserId>, goal: GoalId)
    | NewComment(user: UserId, commentInput: CommentInput)

  /** One request against the store; `today` is the server's date. A failed
      request is one whose transaction did not commit. The category and
      goal updates and the board update are the corrected ones. */
  function Handle(s: Store, cfg: Config, today: Date, req: Request): (r: Result<Store>)
    requires Valid(s)
    ensures r.Ok? ==> Valid(r.value)
    ensures r.Ok? && CascadeClosed(s) ==> CascadeClosed(r.value)
  {
    match req
    case NewBoard(u, title) =>
      var c :- CreateBoard(s, cfg, u, title);
      Ok(c.store)
    case EditBoard(u, b, title, roster, partial) => UpdateBoardRequest(s, cfg, u, b, title, roster, partial)
    case RemoveBoard(b) => DestroyBoard(s, b)
    case NewCategory(u, input) =>
      var c :- CreateCategory(s, u, input);
      Ok(c.store)
    case EditCategory(u, c, patch, partial) => UpdateCategory(s, u, c, patch, partial)
    case RemoveCategory(c) => DestroyCategory(s, c)
    case NewGoal(u, input) =>
      var c :- CreateGoalRequest(s, u, today, input);
      Ok(c.store)
    case EditGoal(u, g, patch, partial) => UpdateGoal(s, u, today, g, patch, partial)
    case RemoveGoal(u, g) => DestroyGoal(s, u, g)
    case NewComment(u, input) =>
      var c :- CreateComment(s, u, input);
      Ok(c.store)
  }

  /** Requests applied one after another; a failed one leaves the store as
      it was (every transaction is all-or-nothing). */
  function Run(s: Store, cfg: Config, today: Date, reqs: seq<Request>): (t: Store)
    requires Valid(s)
    ensures Valid(t)
    decreases |reqs|
  {
    if reqs == [] then s
    else
      var r := Handle(s, cfg, today, reqs[0]);
      Run(if r.Ok? then r.value else s, cfg, today, reqs[1..])
  }

  /** Whatever sequence of the modelled requests arrives, a deleted board
      keeps only deleted categories and a deleted category keeps only
      archived goals. */
  lemma {:induction false} RunKeepsCascade(s: Store, cfg: Config, today: Date, reqs: seq<Request>)
    requires Valid(s) && CascadeClosed(s)
    ensures CascadeClosed(Run(s, cfg, today, reqs))
    decreases |reqs|
  {
    if reqs != [] {
      var r := Handle(s, cfg, today, reqs[0]);
      RunKeepsCascade(if r.Ok? then r.value else s, cfg, today, reqs[1..]);
    }
  }

  /** Board creation adds one row for a board nobody had rows on, so a
      unique constraint is never hit. */
  lemma CreateBoardKeepsUnique(s: Store, cfg: Config, requester: Option<UserId>, title: string)
    requires Valid(s) && UniqueMembership(s.participants)
    ensures var r := CreateBoard(s, cfg, requester, title);
      r.Ok? ==> UniqueMembership(r.value.store.participants)
  {
    var r := CreateBoard(s, cfg, requester, title);
    if r.Ok? {
      var id := r.value.id;
      var p := Participant(id, requester.value, cfg.defaultRole);
      forall b, u
        ensures |RowsOf(r.value.store.participants, b, u)| <= 1
      {
        RowsOfSnoc(s.participants, p, b, u);
        if b == id {
          NoRowsOf(s.participants, b, u);
        }
      }
    }
  }

  /** With a unique (board, user) constraint no request ever leaves two
      rows for one pair. */
  lemma HandleKeepsUnique(s: Store, cfg: Config, today: Date, req: Request)
    requires Valid(s) && cfg.uniqueMembership && UniqueMembership(s.participants)
    ensures var r := Handle(s, cfg, today, req);
      r.Ok? ==> UniqueMembership(r.value.participants)
  {
    match req
    case NewBoard(u, title) =>
      CreateBoardKeepsUnique(s, cfg, u, title);
    case EditBoard(u, b, title, roster, partial) =>
      var r := UpdateBoardRequest(s, cfg, u, b, title, roster, partial);
      if r.Ok? {
        RosterUpdateKeepsUnique(s.participants, u, b, EntriesOf(roster).GetOr([]));
      }
    case _ =>
  }

  // ---------------------------------------------------------------------
  // What the views show

  /** Under the cascade invariant every row a list shows has live
      ancestors: a listed category's board is listed, a visible goal's
      category and board are listed, and a visible comment's goal is
      visible, although the comment queryset never looks at the category. */
  lemma VisibleRowsHaveLiveAncestors(s: Store, u: UserId)
    requires Valid(s) && CascadeClosed(s)
    ensures forall c :: CategoryListed(s, u, c) ==> BoardListed(s, u, s.categories[c].board)
    ensures forall g :: GoalVisible(s, u, g) ==>
      CategoryListed(s, u, s.goals[g].category) && BoardListed(s, u, BoardOfGoal(s, g))
    ensures forall k :: CommentVisible(s, u, k) ==> GoalVisible(s, u, s.comments[k].goal)
  {
  }

  /** After a board is destroyed nobody sees it, any category on it, any
      goal in those categories, or any comment on those goals, in a list or
      through a lookup. */
  lemma DestroyedBoardDisappears(s: Store, id: BoardId, u: UserId)
    requires Valid(s) && BoardFound(s, id)
    ensures var t := DestroyBoard(s, id).value;
      && !BoardFound(t, id)
      && (forall c :: c in t.categories && t.categories[c].board == id ==> !CategoryFound(t, c))
      && (forall g :: g in t.goals && BoardOfGoal(t, g) == id ==> g !in GoalList(t, u))
      && (forall k :: k in t.comments && BoardOfGoal(t, t.comments[k].goal) == id ==> k !in CommentList(t, u))
  {
  }

  /** Destroying a category hides it and its goals and comments, and
      leaves its board and sibling categories as they were. */
  lemma DestroyedCategoryDisappears(s: Store, id: CategoryId, u: UserId)
    requires Valid(s) && CategoryFound(s, id)
    ensures var t := DestroyCategory(s, id).value;
      && !CategoryFound(t, id)
      && t.boards == s.boards
      && (forall c :: c in s.categories && c != id ==> t.categories[c] == s.categories[c])
      && (forall g :: g in t.goals && t.goals[g].category == id ==> g !in GoalList(t, u))
      && (forall k :: k in t.comments && t.goals[t.comments[k].goal].category == id ==> k !in CommentList(t, u))
  {
  }

  /** A destroyed board, category or goal is not found a second time, so it
      cannot be destroyed twice. */
  lemma DestroyIsNotRepeatable(s: Store, b: BoardId, c: CategoryId, g: GoalId, requester: Option<UserId>)
    ensures DestroyBoard(s, b).Ok? ==> DestroyBoard(DestroyBoard(s, b).value, b) == Err(NotFound)
    ensures DestroyCategory(s, c).Ok? ==> DestroyCategory(DestroyCategory(s, c).value, c) == Err(NotFound)
    ensures DestroyGoal(s, requester, g).Ok? ==>
      DestroyGoal(DestroyGoal(s, requester, g).value, requester, g) == Err(NotFound)
  {
  }

  /** A destroyed parent takes no new children: no category on a deleted
      board, no goal in a deleted category, no comment on an archived goal,
      whoever asks. */
  lemma DestroyedParentsRefuseChildren(s: Store, u: UserId, today: Date, b: BoardId, c: CategoryId, g: GoalId,
                                       ci: CategoryInput, gi: GoalInput, ki: CommentInput)
    requires Valid(s) && ci.board == b && gi.category == c && ki.goal == g
    ensures BoardFound(s, b) ==> CreateCategory(DestroyBoard(s, b).value, u, ci) == Err(ValidationError)
    ensures CategoryFound(s, c) ==> CreateGoal(DestroyCategory(s, c).value, u, today, gi) == Err(ValidationError)
    ensures DestroyGoal(s, Some(u), g).Ok? ==>
      CreateComment(DestroyGoal(s, Some(u), g).value, u, ki) == Err(ValidationError)
  {
  }

  /** A user with no participant row on a board cannot create under it
      (ValidationError when the parent is deleted, PermissionDenied
      otherwise), and does not even find its goals to update or destroy
      them. Not covered:
      - board update and destroy, and category update and destroy, are open
        to every signed-in user here, because their permission classes are
        not part of this model;
      - a goal's author can move the goal into a live category on a board
        where they have no row, because the goal update's category check has
        no role check (`GoalMoveNeedsNoRoleOnTarget`). */
  lemma NonMemberCannotCreateOrFindGoals(s: Store, u: UserId, today: Date, g: GoalId, ci: CategoryInput,
                                         gi: GoalInput, ki: CommentInput, patch: GoalPatch, partial: bool)
    requires Valid(s)
    requires g in s.goals && !IsMember(s, BoardOfGoal(s, g), u)
    requires ci.board == BoardOfGoal(s, g) && gi.category == s.goals[g].category && ki.goal == g
    ensures CreateCategory(s, u, ci).Err?
    ensures CreateGoal(s, u, today, gi).Err?
    ensures CreateComment(s, u, ki).Err?
    ensures !BoardFound(s, ci.board) ==> CreateCategory(s, u, ci) == Err(ValidationError)
    ensures BoardFound(s, ci.board) ==> CreateCategory(s, u, ci) == Err(PermissionDenied)
    ensures UpdateGoal(s, Some(u), today, g, patch, partial) == Err(NotFound)
    ensures DestroyGoal(s, Some(u), g) == Err(NotFound)
  {
  }

  /** A roster update through BoardView, seen as membership: afterwards the
      board's participants are the requester, if they were one, and exactly
      the submitted users. A PATCH without `participants` removes everybody
      but the requester; a PUT without it is refused. */
  lemma UpdateBoardMembership(s: Store, cfg: Config, requester: UserId, id: BoardId, title: Option<string>,
                              participants: Option<seq<RosterEntry>>, partial: bool, v: UserId)
    requires UpdateBoard(s, cfg, requester, id, title, participants, partial).Ok?
    ensures var t := UpdateBoard(s, cfg, requester, id, title, participants, partial).value;
      IsMember(t, id, v) <==>
        (v == requester && IsMember(s, id, v)) || exists e :: e in participants.GetOr([]) && e.user == v
    ensures participants.None? ==> partial
    ensures participants.None? ==>
      (IsMember(UpdateBoard(s, cfg, requester, id, title, participants, partial).value, id, v) <==>
        v == requester && IsMember(s, id, v))
  {
    var entries := participants.GetOr([]);
    RosterUpdateMembership(s.participants, cfg.uniqueMembership, requester, id, entries, v);
  }

  /** The requester's own rows, and every other board's rows, come through
      a roster update untouched. */
  lemma UpdateBoardKeepsOtherRows(s: Store, cfg: Config, requester: UserId, id: BoardId, title: Option<string>,
                                  participants: Option<seq<RosterEntry>>, partial: bool, c: BoardId, v: UserId)
    requires UpdateBoard(s, cfg, requester, id, title, participants, partial).Ok?
    requires c != id || v == requester
    ensures RowsOf(UpdateBoard(s, cfg, requester, id, title, participants, partial).value.participants, c, v)
      == RowsOf(s.participants, c, v)
  {
    RosterUpdateRows(s.participants, cfg.uniqueMembership, requester, id, participants.GetOr([]), c, v);
  }

  // ---------------------------------------------------------------------
  // Detail lookups and their lists

  /** What each list filter looks at. Flagging a board deleted, with no
      cascade, leaves the category list as it was, since that filter checks
      only the category's own flag; flagging a category deleted leaves the
      comment list as it was, since that filter never looks at the
      category's flag, while every goal of that category leaves the goal
      list. */
  lemma ListFiltersIgnoreAncestorFlags(s: Store, u: UserId, b: BoardId, c: CategoryId)
    requires b in s.boards && c in s.categories
    ensures CategoryList(s.(boards := s.boards[b := s.boards[b].(isDeleted := true)]), u) == CategoryList(s, u)
    ensures var t := s.(categories := s.categories[c := s.categories[c].(isDeleted := true)]);
      && CommentList(t, u) == CommentList(s, u)
      && forall g :: g in s.goals && s.goals[g].category == c ==> g !in GoalList(t, u)
  {
  }

  /** With a unique (board, user) constraint no join yields a row twice, so
      the goal and comment detail views find exactly what their lists show. */
  lemma LookupsAgreeWithListsWhenUnique(s: Store, u: UserId, g: GoalId, k: CommentId)
    requires UniqueMembership(s.participants)
    ensures GoalLookup(s, u, g).Ok? <==> g in GoalList(s, u)
    ensures CommentLookup(s, u, k).Ok? <==> k in CommentList(s, u)
  {
    if GoalVisible(s, u, g) {
      assert |RowsOf(s.participants, s.categories[s.goals[g].category].board, u)| <= 1;
    }
    if CommentVisible(s, u, k) {
      assert |RowsOf(s.participants, s.categories[s.goals[s.comments[k].goal].category].board, u)| <= 1;
    }
  }

  // ---------------------------------------------------------------------
  // The example board

  /** Board "Sprint" of owner 7, with two live categories, a goal in the
      first, and a comment on that goal. User 2 exists but is not on the
      board. */
  function ExampleBoard(): Store {
    Store(
      users := {2, 7},
      boards := map[0 := Board("Sprint", false)],
      participants := [Participant(0, 7, Owner)],
      categories := map[0 := Category("Backlog", 0, 7, false), 1 := Category("Doing", 0, 7, false)],
      goals := map[0 := Goal("Ship v1", None, None, ToDo, Medium, 0, 7)],
      comments := map[0 := Comment("On it", 0, 7)],
      nextBoard := 1, nextCategory := 2, nextGoal := 1, nextComment := 1)
  }

  /** The example board is a committed state with its cascade closed, and
      its owner sees goal 0 through the detail view. */
  lemma ExampleBoardFacts()
    ensures Valid(ExampleBoard()) && CascadeClosed(ExampleBoard())
    ensures GoalVisible(ExampleBoard(), 7, 0) && !GoalAmbiguous(ExampleBoard(), 7, 0)
  {
    var s := ExampleBoard();
    assert Participant(0, 7, Owner) in s.participants;
    assert s.participants == [] + [Participant(0, 7, Owner)];
    RowsOfSnoc([], Participant(0, 7, Owner), 0, 7);
  }

  // ---------------------------------------------------------------------
  // The goal update's category

  /** As written, moving the goal to the live category "Doing" fails with a
      server error, by PATCH or by PUT; with validate_category returning the
      category the same PATCH moves the goal. */
  lemma GoalMoveCounterexample()
    ensures UpdateGoalAsWritten(ExampleBoard(), Some(7), 0, 0, GoalPatch(None, None, None, None, None, Some(1)), true)
      == Err(ServerError)
    ensures UpdateGoalAsWritten(ExampleBoard(), Some(7), 0, 0, GoalPatch(Some("Ship v1"), None, None, None, None, Some(1)), false)
      == Err(ServerError)
    ensures var r := UpdateGoal(ExampleBoard(), Some(7), 0, 0, GoalPatch(None, None, None, None, None, Some(1)), true);
      r.Ok? && r.value.goals[0].category == 1
  {
    ExampleBoardFacts();
  }

  /** The goal update checks only that the target category is live, not the
      author's role on its board: an author may move a goal they can see
      into a live category on any board, even one they have no row on. */
  lemma GoalMoveNeedsNoRoleOnTarget(s: Store, u: UserId, today: Date, g: GoalId, c: CategoryId, patch: GoalPatch,
                                    partial: bool)
    requires Valid(s) && GoalVisible(s, u, g) && !GoalAmbiguous(s, u, g) && s.goals[g].author == u
    requires PatchFieldsOk(today, partial, patch) && patch.category == Some(c) && CategoryFound(s, c)
    ensures var r := UpdateGoal(s, Some(u), today, g, patch, partial);
      r.Ok? && r.value.goals[g].category == c
      && (IsMember(r.value, s.categories[c].board, u) <==> IsMember(s, s.categories[c].board, u))
  {
  }

  /** A PATCH that sets the status to archived (code 4) takes the goal out
      of the goal list, without the destroy view. */
  lemma StatusPatchArchivesGoal(s: Store, u: UserId, today: Date, g: GoalId, patch: GoalPatch)
    requires Valid(s) && patch.status == Some(4)
    requires UpdateGoal(s, Some(u), today, g, patch, true).Ok?
    ensures var t := UpdateGoal(s, Some(u), today, g, patch, true).value;
      t.goals[g].status == Archived && g !in GoalList(t, u)
  {
    var t := UpdateGoal(s, Some(u), today, g, patch, true).value;
    assert StatusCode(t.goals[g].status) == 4;
  }

  // ---------------------------------------------------------------------
  // The category update's is_deleted

  /** As written, a PATCH of the example board whose one entry names user
      2 and leaves out the role passes validation and then fails on the
      missing key: a server error. Validating the entry as a full one
      refuses it; as a PUT both versions refuse it. */
  lemma RosterPatchCounterexample(cfg: Config)
    ensures var body := Some([SubmittedEntry(Some(2), None)]);
      && UpdateBoardAsWritten(ExampleBoard(), cfg, 7, 0, None, body, true) == Err(ServerError)
      && UpdateBoardRequest(ExampleBoard(), cfg, 7, 0, None, body, true) == Err(ValidationError)
      && UpdateBoardAsWritten(ExampleBoard(), cfg, 7, 0, None, body, false) == Err(ValidationError)
  {
    var es := [SubmittedEntry(Some(2), None)];
    assert es[0] in es && !Complete(es[0]);
    assert ValidateSubmittedRoster(ExampleBoard(), cfg, 7, es, true).Ok?;
  }

  /** As written, a PATCH of category "Backlog" with `is_deleted` true
      succeeds and leaves its goal unarchived: the cascade is open, the goal
      has left the goal list, and its comment is still listed. With
      `is_deleted` read-only the same PATCH leaves the category live and the
      cascade closed. */
  lemma CategoryDeleteByUpdateCounterexample()
    ensures var r := UpdateCategoryAsWritten(ExampleBoard(), 7, 0, CategoryPatch(None, None, Some(true)), true);
      && r.Ok? && !CascadeClosed(r.value)
      && 0 !in GoalList(r.value, 7) && 0 in CommentList(r.value, 7)
    ensures var r := UpdateCategory(ExampleBoard(), 7, 0, CategoryPatch(None, None, Some(true)), true);
      r.Ok? && CategoryFound(r.value, 0) && CascadeClosed(r.value)
  {
    ExampleBoardFacts();
    var t := UpdateCategoryAsWritten(ExampleBoard(), 7, 0, CategoryPatch(None, None, Some(true)), true).value;
    assert Participant(0, 7, Owner) in t.participants;
    assert CommentVisible(t, 7, 0);
  }

  // ---------------------------------------------------------------------
  // A repeated invitation

  /** Without a unique constraint, a roster that names user 2 twice leaves
      two rows for them, and the goal detail view then fails for them with
      a server error although the goal list shows the goal. */
  lemma RepeatedInvitationBreaksLookup(cfg: Config)
    requires !cfg.uniqueMembership && Writer in cfg.editableRoles && Reader in cfg.editableRoles
    ensures var r := UpdateBoard(ExampleBoard(), cfg, 7, 0, None, Some([RosterEntry(2, Writer), RosterEntry(2, Reader)]), true);
      && r.Ok?
      && 0 in GoalList(r.value, 2)
      && GoalLookup(r.value, 2, 0) == Err(ServerError)
  {
    ExampleBoardFacts();
    var s := ExampleBoard();
    var roster := [RosterEntry(2, Writer), RosterEntry(2, Reader)];
    assert ValidateRoster(s, cfg, 7, roster) == Ok(roster) by {
      assert ValidateEntry(s, cfg, 7, roster[0]).Ok? && ValidateEntry(s, cfg, 7, roster[1]).Ok?;
    }
    var t := ApplyRosterUpdate(s, cfg, 7, 0, None, roster);
    assert UpdateBoard(s, cfg, 7, 0, None, Some(roster), true) == Ok(t);
    TwiceInvitedRows(s.participants, roster);
    var rows := RowsOf(t.participants, 0, 2);
    assert rows[0] in rows;
    assert IsMember(t, 0, 2);
    assert GoalVisible(t, 2, 0);
  }

  /** The rows a roster naming user 2 twice leaves for them on board 0,
      without a unique constraint: both. */
  lemma TwiceInvitedRows(before: seq<Participant>, roster: seq<RosterEntry>)
    requires roster == [RosterEntry(2, Writer), RosterEntry(2, Reader)]
    ensures RowsOf(RosterRows(before, false, 7, 0, roster), 0, 2) == [Participant(0, 2, Writer), Participant(0, 2, Reader)]
  {
    RosterUpdateRows(before, false, 7, 0, roster, 0, 2);
    TwiceSubmitted(roster);
  }

  /** Both submitted rows of user 2 are theirs. */
  lemma TwiceSubmitted(roster: seq<RosterEntry>)
    requires roster == [RosterEntry(2, Writer), RosterEntry(2, Reader)]
    ensures RowsOf(ToRows(roster, 0), 0, 2) == [Participant(0, 2, Writer), Participant(0, 2, Reader)]
  {
    var rows := ToRows(roster, 0);
    assert rows == [Participant(0, 2, Writer)] + [Participant(0, 2, Reader)];
    RowsOfSnoc([Participant(0, 2, Writer)], Participant(0, 2, Reader), 0, 2);
    RowsOfSnoc([], Participant(0, 2, Writer), 0, 2);
  }

  // ---------------------------------------------------------------------
  // A board's life

  /** The store of three users before anything happens. */
  function NoBoards(): Store {
    Store({1, 2, 3}, map[], [], map[], map[], map[], 0, 0, 0, 0)
  }

  /** Owner 1 creates board "Sprint" and adds 2 as writer and 3 as reader. */
  function SprintWithRoster(cfg: Config): Result<Store> {
    var created :- CreateBoard(NoBoards(), cfg, Some(1), "Sprint");
    UpdateBoard(created.store, cfg, 1, created.id, None, Some([RosterEntry(2, Writer), RosterEntry(3, Reader)]), true)
  }

  /** After the invitations board 0 is live, 2 may write on it, and 3 is a
      participant who may not. */
  lemma SprintRoster(cfg: Config)
    requires cfg.defaultRole == Owner && Writer in cfg.editableRoles && Reader in cfg.editableRoles
    ensures var r := SprintWithRoster(cfg);
      && r.Ok? && Valid(r.value) && CascadeClosed(r.value)
      && BoardFound(r.value, 0) && CanWrite(r.value, 0, 2) && IsMember(r.value, 0, 3) && !CanWrite(r.value, 0, 3)
  {
    var s0 := NoBoards();
    var s1 := s0.(boards := s0.boards[0 := Board("Sprint", false)],
                  participants := s0.participants + [Participant(0, 1, Owner)], nextBoard := 1);
    assert CreateBoard(NoBoards(), cfg, Some(1), "Sprint") == Ok(Created(s1, 0));
    var roster := [RosterEntry(2, Writer), RosterEntry(3, Reader)];
    assert ValidateRoster(s1, cfg, 1, roster) == Ok(roster) by {
      assert ValidateEntry(s1, cfg, 1, roster[0]).Ok? && ValidateEntry(s1, cfg, 1, roster[1]).Ok?;
    }
    var s2 := ApplyRosterUpdate(s1, cfg, 1, 0, None, roster);
    assert SprintWithRoster(cfg) == Ok(s2);
    InvitedRows(s1.participants, cfg.uniqueMembership, roster);
  }

  /** The rows the invitations leave for users 2 and 3. */
  lemma InvitedRows(before: seq<Participant>, unique: bool, roster: seq<RosterEntry>)
    requires roster == [RosterEntry(2, Writer), RosterEntry(3, Reader)]
    ensures Participant(0, 2, Writer) in RosterRows(before, unique, 1, 0, roster)
    ensures Participant(0, 3, Reader) in RosterRows(before, unique, 1, 0, roster)
    ensures !exists p :: p in RosterRows(before, unique, 1, 0, roster) && p.board == 0 && p.user == 3 && IsWriterRole(p.role)
  {
    SubmittedInvitations(roster);
    RosterUpdateRows(before, unique, 1, 0, roster, 0, 2);
    RosterUpdateRows(before, unique, 1, 0, roster, 0, 3);
    var after := RosterRows(before, unique, 1, 0, roster);
    OnlyRow(after, Participant(0, 2, Writer));
    OnlyRow(after, Participant(0, 3, Reader));
  }

  /** The submitted rows of users 2 and 3. */
  lemma SubmittedInvitations(roster: seq<RosterEntry>)
    requires roster == [RosterEntry(2, Writer), RosterEntry(3, Reader)]
    ensures RowsOf(ToRows(roster, 0), 0, 2) == [Participant(0, 2, Writer)]
    ensures RowsOf(ToRows(roster, 0), 0, 3) == [Participant(0, 3, Reader)]
  {
    var rows := ToRows(roster, 0);
    assert rows == [Participant(0, 2, Writer)] + [Participant(0, 3, Reader)];
    RowsOfSnoc([Participant(0, 2, Writer)], Participant(0, 3, Reader), 0, 2);
    RowsOfSnoc([Participant(0, 2, Writer)], Participant(0, 3, Reader), 0, 3);
    RowsOfSnoc([], Participant(0, 2, Writer), 0, 2);
    RowsOfSnoc([], Participant(0, 2, Writer), 0, 3);
  }

  /** When a pair has exactly one row, that row is in the table and is the
      pair's only one. */
  lemma OnlyRow(rows: seq<Participant>, row: Participant)
    requires RowsOf(rows, row.board, row.user) == [row]
    ensures row in rows
    ensures forall p :: p in rows && p.board == row.board && p.user == row.user ==> p == row
  {
    assert row in RowsOf(rows, row.board, row.user);
  }

  /** The walk-through on a live board `b` where 2 writes and 3 only reads:
      the writer creates category "Backlog"; the reader may not create one.
      A goal due yesterday is refused, one due today is created with the
      default status and priority. The reader may not comment on it. The
      board is destroyed: "Backlog" is deleted, its goal archived, and the
      writer can no longer add a goal to it. */
  predicate SprintScenario(s: Store, b: BoardId, today: Date)
    requires Valid(s)
  {
    && CreateCategory(s, 3, CategoryInput("Ideas", b, None)) == Err(PermissionDenied)
    && var backlog := CreateCategory(s, 2, CategoryInput("Backlog", b, None));
    && backlog.Ok?
    && var s1 := backlog.value.store; var c := backlog.value.id;
    && !s1.categories[c].isDeleted
    && CreateGoal(s1, 2, today, GoalInput("Ship v1", None, Some(today - 1), None, None, c)) == Err(ValidationError)
    && var shipped := CreateGoal(s1, 2, today, GoalInput("Ship v1", None, Some(today), None, None, c));
    && shipped.Ok?
    && var s2 := shipped.value.store; var g := shipped.value.id;
    && s2.goals[g].status == ToDo && s2.goals[g].priority == Medium
    && CreateComment(s2, 3, CommentInput("Ready?", g)) == Err(PermissionDenied)
    && DestroyBoard(s2, b).Ok?
    && var s3 := DestroyBoard(s2, b).value;
    && s3.categories[c].isDeleted && s3.goals[g].status == Archived
    && CreateGoal(s3, 2, today, GoalInput("Ship v2", None, None, None, None, c)) == Err(ValidationError)
  }

  /** The scenario holds on any live board where 2 writes and 3 only reads. */
  lemma SprintContent(s: Store, b: BoardId, today: Date)
    requires Valid(s) && CascadeClosed(s) && BoardFound(s, b) && CanWrite(s, b, 2) && !CanWrite(s, b, 3)
    ensures SprintScenario(s, b, today)
  {
  }

  /** The whole walk-through, from an empty board list: board 0 is created
      and the invitations succeed, then the scenario runs on it. */
  lemma BoardWalkthrough(cfg: Config, today: Date)
    requires cfg.defaultRole == Owner && Writer in cfg.editableRoles && Reader in cfg.editableRoles
    ensures SprintWithRoster(cfg).Ok? && Valid(SprintWithRoster(cfg).value)
    ensures SprintScenario(SprintWithRoster(cfg).value, 0, today)
  {
    SprintRoster(cfg);
    SprintContent(SprintWithRoster(cfg).value, 0, today);
  }
}

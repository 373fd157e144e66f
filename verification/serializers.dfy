/** The validation and write logic of goals/serializers.py: roster entries
    and the roster update of a board, the parent checks of category, goal and
    comment creation, the due-date check, the fields of a category update,
    and the goal update's category check.

    DRF validates the fields of a serializer in order and collects their
    ValidationErrors; a PermissionDenied raised by a field validator is not
    collected and ends the request at once. With `fields = '__all__'` the
    foreign key (board, category, goal) comes after the plain fields, so its
    validator runs last: `CollectFieldErrors` states the resulting outcome. */
module Serializers {
  import opened Outcomes
  import opened Models
  import opened ParticipantTable

  // ---------------------------------------------------------------------
  // Participants and the roster update

  /** One submitted participant: the user (given by username) and a role. */
  datatype RosterEntry = RosterEntry(user: UserId, role: Role)

  /** BoardParticipantSerializer.validate_user: nobody may submit a row for
      themselves, so nobody changes their own role. */
  function ValidateUser(requester: UserId, user: UserId): (r: Result<UserId>)
    ensures r.Ok? <==> user != requester
    ensures r.Ok? ==> r.value == user
    ensures r.Err? ==> r.error == ValidationError
  {
    if user == requester then Err(ValidationError) else Ok(user)
  }

  /** One entry of the roster: its role must be one of the editable roles
      (the ChoiceField), its username must name an existing user (the
      SlugRelatedField), and it must not be the requester. */
  function ValidateEntry(s: Store, cfg: Config, requester: UserId, e: RosterEntry): (r: Result<RosterEntry>)
    ensures r.Ok? <==> e.role in cfg.editableRoles && e.user in s.users && e.user != requester
    ensures r.Ok? ==> r.value == e
    ensures r.Err? ==> r.error == ValidationError
  {
    if e.role !in cfg.editableRoles || e.user !in s.users then Err(ValidationError)
    else
      var _ :- ValidateUser(requester, e.user);
      Ok(e)
  }

  /** The nested `participants` list: valid exactly when every entry is. */
  function ValidateRoster(s: Store, cfg: Config, requester: UserId, entries: seq<RosterEntry>): (r: Result<seq<RosterEntry>>)
    ensures r.Ok? <==> forall i :: 0 <= i < |entries| ==> ValidateEntry(s, cfg, requester, entries[i]).Ok?
    ensures r.Ok? ==> r.value == entries && forall e :: e in entries ==> e.user != requester
    ensures r.Err? ==> r.error == ValidationError
    decreases |entries|
  {
    if entries == [] then Ok([])
    else
      var first :- ValidateEntry(s, cfg, requester, entries[0]);
      var rest :- ValidateRoster(s, cfg, requester, entries[1..]);
      assert entries == [first] + rest;
      Ok([first] + rest)
  }

  /** One participant as the request body gives it. `role` is declared
      required, but DRF skips a missing field of every serializer whose root
      is partial, nested ones included, so on a PATCH either field may be
      absent from a validated entry. */
  datatype SubmittedEntry = SubmittedEntry(user: Option<UserId>, role: Option<Role>)

  /** The entry carries both fields. */
  predicate Complete(e: SubmittedEntry) {
    e.user.Some? && e.role.Some?
  }

  /** A full entry as a body that gives both fields submits it. */
  function Submit(e: RosterEntry): (r: SubmittedEntry)
    ensures Complete(r)
    ensures r.user == Some(e.user) && r.role == Some(e.role)
  {
    SubmittedEntry(Some(e.user), Some(e.role))
  }

  /** The full entries behind submitted entries that all carry both fields. */
  function Entries(es: seq<SubmittedEntry>): (r: seq<RosterEntry>)
    requires forall e :: e in es ==> Complete(e)
    ensures |r| == |es|
    ensures forall i :: 0 <= i < |es| ==> Submit(r[i]) == es[i]
    ensures forall e :: e in r ==> Submit(e) in es
    decreases |es|
  {
    if es == [] then []
    else
      assert es[0] in es && Complete(es[0]);
      assert forall e :: e in es[1..] ==> e in es;
      [RosterEntry(es[0].user.value, es[0].role.value)] + Entries(es[1..])
  }

  /** `Entries` lifted to the optional `participants` field. */
  function EntriesOf(participants: Option<seq<SubmittedEntry>>): (r: Option<seq<RosterEntry>>)
    requires forall e :: e in participants.GetOr([]) ==> Complete(e)
    ensures r.None? <==> participants.None?
    ensures r.Some? ==> r.value == Entries(participants.value)
  {
    if participants.None? then None else Some(Entries(participants.value))
  }

  /** BoardParticipantSerializer on one submitted entry. With `partial`
      false a missing field is a ValidationError; with it true the field is
      skipped and only the fields present are checked. */
  function ValidateSubmittedEntry(s: Store, cfg: Config, requester: UserId, e: SubmittedEntry,
                                  partial: bool): (r: Result<SubmittedEntry>)
    ensures r.Ok? <==>
      && (partial || Complete(e))
      && (e.role.None? || e.role.value in cfg.editableRoles)
      && (e.user.None? || (e.user.value in s.users && e.user.value != requester))
    ensures r.Ok? ==> r.value == e
    ensures r.Err? ==> r.error == ValidationError
  {
    if !partial && !Complete(e) then Err(ValidationError)
    else if e.role.Some? && e.role.value !in cfg.editableRoles then Err(ValidationError)
    else if e.user.Some? && e.user.value !in s.users then Err(ValidationError)
    else if e.user.Some? then
      var _ :- ValidateUser(requester, e.user.value);
      Ok(e)
    else Ok(e)
  }

  /** The nested `participants` list as submitted: valid exactly when every
      entry is. */
  function ValidateSubmittedRoster(s: Store, cfg: Config, requester: UserId, es: seq<SubmittedEntry>,
                                   partial: bool): (r: Result<seq<SubmittedEntry>>)
    ensures r.Ok? <==> forall i :: 0 <= i < |es| ==> ValidateSubmittedEntry(s, cfg, requester, es[i], partial).Ok?
    ensures r.Ok? ==> r.value == es
    ensures r.Err? ==> r.error == ValidationError
    decreases |es|
  {
    if es == [] then Ok([])
    else
      var first :- ValidateSubmittedEntry(s, cfg, requester, es[0], partial);
      var rest :- ValidateSubmittedRoster(s, cfg, requester, es[1..], partial);
      assert es == [first] + rest;
      Ok([first] + rest)
  }

  /** On entries that all carry both fields, validating them as submitted,
      PATCH or PUT, agrees with validating the full entries. */
  lemma {:induction false} SubmittedRosterAgrees(s: Store, cfg: Config, requester: UserId, es: seq<SubmittedEntry>,
                                                 partial: bool)
    requires forall e :: e in es ==> Complete(e)
    ensures ValidateSubmittedRoster(s, cfg, requester, es, partial).Ok? <==>
      ValidateRoster(s, cfg, requester, Entries(es)).Ok?
  {
    var full := Entries(es);
    forall i | 0 <= i < |es|
      ensures ValidateSubmittedEntry(s, cfg, requester, es[i], partial).Ok? <==>
        ValidateEntry(s, cfg, requester, full[i]).Ok?
    {
      assert Submit(full[i]) == es[i];
    }
  }

  /** With `partial` false, a submitted list holding an entry that leaves
      out a field is refused. */
  lemma IncompleteEntryRefused(s: Store, cfg: Config, requester: UserId, es: seq<SubmittedEntry>)
    ensures (exists e :: e in es && !Complete(e)) ==>
      ValidateSubmittedRoster(s, cfg, requester, es, false) == Err(ValidationError)
  {
    if e :| e in es && !Complete(e) {
      var i :| 0 <= i < |es| && es[i] == e;
      assert !ValidateSubmittedEntry(s, cfg, requester, es[i], false).Ok?;
    }
  }

  /** Validated submitted entries name the requester nowhere, so their full
      entries do not either. */
  lemma ValidEntriesSkipRequester(s: Store, cfg: Config, requester: UserId, es: seq<SubmittedEntry>, partial: bool)
    requires forall e :: e in es ==> Complete(e)
    requires ValidateSubmittedRoster(s, cfg, requester, es, partial).Ok?
    ensures forall e :: e in Entries(es) ==> e.user != requester
  {
    forall e | e in Entries(es)
      ensures e.user != requester
    {
      var i :| 0 <= i < |es| && es[i] == Submit(e);
      assert ValidateSubmittedEntry(s, cfg, requester, es[i], partial).Ok?;
    }
  }

  /** The BoardParticipant rows built from the entries for board `b`. */
  function ToRows(entries: seq<RosterEntry>, b: BoardId): (r: seq<Participant>)
    ensures |r| == |entries|
    ensures forall i :: 0 <= i < |entries| ==> r[i] == Participant(b, entries[i].user, entries[i].role)
  {
    seq(|entries|, i requires 0 <= i < |entries| => Participant(b, entries[i].user, entries[i].role))
  }

  /** The participant table after the roster update of board `id`: the
      filtered delete followed by the bulk insert. */
  function RosterRows(rows: seq<Participant>, unique: bool, requester: UserId, id: BoardId,
                      entries: seq<RosterEntry>): (r: seq<Participant>)
    ensures forall p :: p in r ==> p in rows || (p.board == id && p in ToRows(entries, id))
  {
    BulkCreate(DeleteOthers(rows, id, requester), ToRows(entries, id), unique)
  }

  /** BoardWithParticipantsSerializer.update, one atomic step: delete every
      participant row of the board except the requester's, bulk-insert the
      submitted rows ignoring conflicts, and set the title when a non-empty
      one was given. Nothing but the board and the participant table changes. */
  function ApplyRosterUpdate(s: Store, cfg: Config, requester: UserId, id: BoardId, title: Option<string>,
                             entries: seq<RosterEntry>): (r: Store)
    requires id in s.boards
    requires forall e :: e in entries ==> e.user != requester
    ensures r == s.(boards := r.boards, participants := r.participants)
    ensures r.boards.Keys == s.boards.Keys
    ensures forall b :: b in s.boards && b != id ==> r.boards[b] == s.boards[b]
    ensures r.boards[id].isDeleted == s.boards[id].isDeleted
    ensures title.Some? && title.value != [] ==> r.boards[id].title == title.value
    ensures title.None? || title.value == [] ==> r.boards[id].title == s.boards[id].title
    ensures r.participants == RosterRows(s.participants, cfg.uniqueMembership, requester, id, entries)
    ensures Valid(s) ==> Valid(r)
    ensures CascadeClosed(s) ==> CascadeClosed(r)
  {
    var rows := RosterRows(s.participants, cfg.uniqueMembership, requester, id, entries);
    var board := s.boards[id];
    var board' := if title.Some? && title.value != [] then board.(title := title.value) else board;
    s.(boards := s.boards[id := board'], participants := rows)
  }

  /** A list of rows none of which has the pair (b, u) holds no rows of it. */
  lemma NoRowsOf(rows: seq<Participant>, b: BoardId, u: UserId)
    requires forall p :: p in rows ==> p.board != b || p.user != u
    ensures RowsOf(rows, b, u) == []
  {
    RowsOfNonEmpty(rows, b, u);
  }

  /** The submitted rows are all on board `id` and none is the requester's. */
  lemma NoSubmittedRows(entries: seq<RosterEntry>, requester: UserId, id: BoardId, c: BoardId, v: UserId)
    requires forall e :: e in entries ==> e.user != requester
    requires c != id || v == requester
    ensures RowsOf(ToRows(entries, id), c, v) == []
  {
    var news := ToRows(entries, id);
    forall p | p in news
      ensures p.board != c || p.user != v
    {
      var i :| 0 <= i < |news| && news[i] == p;
      assert entries[i] in entries;
    }
    NoRowsOf(news, c, v);
  }

  /** The participant rows after a roster update, pair by pair: rows of
      other boards and the requester's own rows are exactly as before; every
      other user of the board holds the rows submitted for them, all of them
      without a unique constraint and only the first with one. */
  lemma RosterUpdateRows(rows: seq<Participant>, unique: bool, requester: UserId, id: BoardId,
                         entries: seq<RosterEntry>, c: BoardId, v: UserId)
    requires forall e :: e in entries ==> e.user != requester
    ensures RowsOf(RosterRows(rows, unique, requester, id, entries), c, v) ==
      if c != id || v == requester then RowsOf(rows, c, v)
      else if unique then FirstOnly(RowsOf(ToRows(entries, id), id, v))
      else RowsOf(ToRows(entries, id), id, v)
  {
    var kept := DeleteOthers(rows, id, requester);
    var news := ToRows(entries, id);
    DeleteOthersRows(rows, id, requester, c, v);
    BulkCreateRows(kept, news, unique, c, v);
    if c != id || v == requester {
      NoSubmittedRows(entries, requester, id, c, v);
    }
  }

  /** With a unique (board, user) constraint the roster update keeps at most
      one row per pair. */
  lemma RosterUpdateKeepsUnique(rows: seq<Participant>, requester: UserId, id: BoardId, entries: seq<RosterEntry>)
    requires forall e :: e in entries ==> e.user != requester
    requires UniqueMembership(rows)
    ensures UniqueMembership(RosterRows(rows, true, requester, id, entries))
  {
    forall c, v
      ensures |RowsOf(RosterRows(rows, true, requester, id, entries), c, v)| <= 1
    {
      RosterUpdateRows(rows, true, requester, id, entries, c, v);
    }
  }

  /** Who is on the board after a roster update: the requester if they were
      before, and exactly the submitted users besides. */
  lemma RosterUpdateMembership(rows: seq<Participant>, unique: bool, requester: UserId, id: BoardId,
                               entries: seq<RosterEntry>, v: UserId)
    requires forall e :: e in entries ==> e.user != requester
    ensures (exists p :: p in RosterRows(rows, unique, requester, id, entries) && p.board == id && p.user == v) <==>
      (v == requester && exists p :: p in rows && p.board == id && p.user == v)
      || exists e :: e in entries && e.user == v
  {
    RosterUpdateRows(rows, unique, requester, id, entries, id, v);
    RowsOfNonEmpty(RosterRows(rows, unique, requester, id, entries), id, v);
    RowsOfNonEmpty(rows, id, v);
    if v != requester {
      SubmittedRowsNonEmpty(entries, id, v);
    } else {
      NoSubmittedRows(entries, requester, id, id, v);
    }
  }

  /** A user has a submitted row exactly when some entry names them. */
  lemma SubmittedRowsNonEmpty(entries: seq<RosterEntry>, id: BoardId, v: UserId)
    ensures RowsOf(ToRows(entries, id), id, v) != [] <==> exists e :: e in entries && e.user == v
  {
    var news := ToRows(entries, id);
    RowsOfNonEmpty(news, id, v);
    if exists e :: e in entries && e.user == v {
      var e :| e in entries && e.user == v;
      var i :| 0 <= i < |entries| && entries[i] == e;
      assert news[i] in news;
    }
    if exists p :: p in news && p.board == id && p.user == v {
      var p :| p in news && p.board == id && p.user == v;
      var i :| 0 <= i < |news| && news[i] == p;
      assert entries[i] in entries;
    }
  }

  // ---------------------------------------------------------------------
  // Parent checks and field validation

  /** The outcome of a serializer whose last field is a foreign key with its
      own validator: that validator's PermissionDenied wins over everything;
      otherwise any collected error is a ValidationError. */
  function CollectFieldErrors<T>(otherFieldsOk: bool, related: Result<T>): (r: Result<T>)
    requires related.Err? ==> related.error == ValidationError || related.error == PermissionDenied
    ensures related == Err(PermissionDenied) ==> r == Err(PermissionDenied)
    ensures r.Ok? <==> otherFieldsOk && related.Ok?
    ensures r.Ok? ==> r == related
    ensures r.Err? && related != Err(PermissionDenied) ==> r == Err(ValidationError)
  {
    if related == Err(PermissionDenied) then related
    else if otherFieldsOk && related.Ok? then related
    else Err(ValidationError)
  }

  /** The board field of GoalCategoryCreateSerializer: an unknown id is
      refused by the related field; then validate_board refuses a deleted
      board with ValidationError before it looks at the role, and refuses a
      requester who is not owner or writer there with PermissionDenied. */
  function ValidateBoard(s: Store, requester: UserId, b: BoardId): (r: Result<BoardId>)
    ensures r.Ok? <==> b in s.boards && !s.boards[b].isDeleted && CanWrite(s, b, requester)
    ensures r.Ok? ==> r.value == b
    ensures r == Err(PermissionDenied) <==> b in s.boards && !s.boards[b].isDeleted && !CanWrite(s, b, requester)
    ensures r.Err? ==> r.error == ValidationError || r.error == PermissionDenied
  {
    if b !in s.boards then Err(ValidationError)
    else if s.boards[b].isDeleted then Err(ValidationError)
    else if !CanWrite(s, b, requester) then Err(PermissionDenied)
    else Ok(b)
  }

  /** The category field of GoalCreateSerializer: a deleted category is a
      ValidationError; otherwise the requester must be owner or writer on
      the category's board. */
  function ValidateCategoryOnCreate(s: Store, requester: UserId, c: CategoryId): (r: Result<CategoryId>)
    ensures r.Ok? <==> c in s.categories && !s.categories[c].isDeleted && CanWrite(s, s.categories[c].board, requester)
    ensures r.Ok? ==> r.value == c
    ensures r == Err(PermissionDenied) <==>
      c in s.categories && !s.categories[c].isDeleted && !CanWrite(s, s.categories[c].board, requester)
    ensures r.Err? ==> r.error == ValidationError || r.error == PermissionDenied
  {
    if c !in s.categories then Err(ValidationError)
    else if s.categories[c].isDeleted then Err(ValidationError)
    else if !CanWrite(s, s.categories[c].board, requester) then Err(PermissionDenied)
    else Ok(c)
  }

  /** validate_due_date: a date strictly before today is refused; today,
      a later day, or no date at all is accepted unchanged. */
  function ValidateDueDate(today: Date, d: Option<Date>): (r: Result<Option<Date>>)
    ensures r.Ok? <==> d.None? || today <= d.value
    ensures r.Ok? ==> r.value == d
    ensures r.Err? ==> r.error == ValidationError
  {
    match d
    case None => Ok(None)
    case Some(day) => if day < today then Err(ValidationError) else Ok(d)
  }

  /** GoalSerializer.validate_category exactly as written: a deleted
      category is refused, and on success the method falls off its end, so
      the validated category is None. */
  function ValidateCategoryOnUpdateAsWritten(s: Store, c: CategoryId): (r: Result<Option<CategoryId>>)
    ensures r.Ok? <==> c in s.categories && !s.categories[c].isDeleted
    ensures r.Ok? ==> r.value.None?
    ensures r.Err? ==> r.error == ValidationError
  {
    if c !in s.categories then Err(ValidationError)
    else if s.categories[c].isDeleted then Err(ValidationError)
    else Ok(None)
  }

  /** GoalSerializer.validate_category as evidently intended: the same
      refusal, and the category itself on success. */
  function ValidateCategoryOnUpdate(s: Store, c: CategoryId): (r: Result<CategoryId>)
    ensures r.Ok? <==> c in s.categories && !s.categories[c].isDeleted
    ensures r.Ok? ==> r.value == c
    ensures r.Err? ==> r.error == ValidationError
  {
    if c !in s.categories then Err(ValidationError)
    else if s.categories[c].isDeleted then Err(ValidationError)
    else Ok(c)
  }

  /** GoalCommentCreateSerializer.validate_goal: an archived goal is a
      ValidationError whatever the requester's role; otherwise the requester
      must be owner or writer on `goal.category.board`. */
  function ValidateGoalForComment(s: Store, requester: UserId, g: GoalId): (r: Result<GoalId>)
    requires Valid(s)
    ensures r.Ok? <==> g in s.goals && s.goals[g].status != Archived && CanWrite(s, BoardOfGoal(s, g), requester)
    ensures r.Ok? ==> r.value == g
    ensures r == Err(PermissionDenied) <==>
      g in s.goals && s.goals[g].status != Archived && !CanWrite(s, BoardOfGoal(s, g), requester)
    ensures r.Err? ==> r.error == ValidationError || r.error == PermissionDenied
  {
    if g !in s.goals then Err(ValidationError)
    else if s.goals[g].status == Archived then Err(ValidationError)
    else if !CanWrite(s, BoardOfGoal(s, g), requester) then Err(PermissionDenied)
    else Ok(g)
  }

  /** A submitted choice code is absent or one of the four choices. */
  predicate StatusChoiceOk(code: Option<int>) {
    code.None? || StatusFromCode(code.value).Some?
  }

  predicate PriorityChoiceOk(code: Option<int>) {
    code.None? || PriorityFromCode(code.value).Some?
  }

  /** The submitted status, or the model default `to_do`. */
  function StatusOrDefault(code: Option<int>): (st: Status)
    requires StatusChoiceOk(code)
    ensures code.None? ==> st == ToDo
    ensures code.Some? ==> StatusCode(st) == code.value
  {
    if code.None? then ToDo else StatusFromCode(code.value).value
  }

  /** The submitted priority, or the model default `medium`. */
  function PriorityOrDefault(code: Option<int>): (pr: Priority)
    requires PriorityChoiceOk(code)
    ensures code.None? ==> pr == Medium
    ensures code.Some? ==> PriorityCode(pr) == code.value
  {
    if code.None? then Medium else PriorityFromCode(code.value).value
  }

  // ---------------------------------------------------------------------
  // Creation

  /** The body of a category create. `isDeleted` is writable and defaults
      to false. */
  datatype CategoryInput = CategoryInput(title: string, board: BoardId, isDeleted: Option<bool>)

  /** GoalCategoryCreateSerializer validation and save. The author is the
      requester; the new row takes the next category id. */
  function CreateCategory(s: Store, requester: UserId, input: CategoryInput): (r: Result<Created>)
    requires Valid(s)
    ensures r.Ok? <==> TitleOk(input.title) && ValidateBoard(s, requester, input.board).Ok?
    ensures r == Err(PermissionDenied) <==> ValidateBoard(s, requester, input.board) == Err(PermissionDenied)
    ensures r.Err? ==> r.error == ValidationError || r.error == PermissionDenied
    ensures BoardIsDeleted(s, input.board) ==> r == Err(ValidationError)
    ensures r.Ok? ==>
      var t := r.value.store; var id := r.value.id;
      && id !in s.categories
      && t == s.(categories := t.categories, nextCategory := t.nextCategory)
      && t.categories == s.categories[id := Category(input.title, input.board, requester, input.isDeleted == Some(true))]
      && Valid(t)
      && (CascadeClosed(s) ==> CascadeClosed(t))
  {
    var b :- CollectFieldErrors(TitleOk(input.title), ValidateBoard(s, requester, input.board));
    var id := s.nextCategory;
    var c := Category(input.title, b, requester, input.isDeleted.GetOr(false));
    Ok(Created(s.(categories := s.categories[id := c], nextCategory := id + 1), id))
  }

  /** The body of a goal create. Description, due date, status and priority
      may be absent; status defaults to `to_do` and priority to `medium`. */
  datatype GoalInput = GoalInput(
    title: string,
    description: Option<string>,
    dueDate: Option<Date>,
    status: Option<int>,
    priority: Option<int>,
    category: CategoryId)

  /** The fields of a goal create other than its category. */
  predicate GoalFieldsOk(today: Date, input: GoalInput) {
    && TitleOk(input.title)
    && ValidateDueDate(today, input.dueDate).Ok?
    && StatusChoiceOk(input.status)
    && PriorityChoiceOk(input.priority)
  }

  /** GoalCreateSerializer validation and save. The author is the
      requester; the new row takes the next goal id. */
  function CreateGoal(s: Store, requester: UserId, today: Date, input: GoalInput): (r: Result<Created>)
    requires Valid(s)
    ensures r.Ok? <==> GoalFieldsOk(today, input) && ValidateCategoryOnCreate(s, requester, input.category).Ok?
    ensures r == Err(PermissionDenied) <==> ValidateCategoryOnCreate(s, requester, input.category) == Err(PermissionDenied)
    ensures r.Err? ==> r.error == ValidationError || r.error == PermissionDenied
    ensures CategoryIsDeleted(s, input.category) ==> r == Err(ValidationError)
    ensures input.dueDate.Some? && input.dueDate.value < today ==> r.Err?
    ensures r.Ok? ==>
      var t := r.value.store; var id := r.value.id;
      && id !in s.goals
      && t == s.(goals := t.goals, nextGoal := t.nextGoal)
      && t.goals.Keys == s.goals.Keys + {id}
      && (forall g :: g in s.goals ==> t.goals[g] == s.goals[g])
      && t.goals[id].category == input.category && t.goals[id].author == requester
      && t.goals[id].title == input.title && t.goals[id].description == input.description
      && t.goals[id].dueDate == input.dueDate
      && (input.status.None? ==> t.goals[id].status == ToDo)
      && (input.status.Some? ==> StatusCode(t.goals[id].status) == input.status.value)
      && (input.priority.None? ==> t.goals[id].priority == Medium)
      && (input.priority.Some? ==> PriorityCode(t.goals[id].priority) == input.priority.value)
      && Valid(t)
      && (CascadeClosed(s) ==> CascadeClosed(t))
  {
    var c :- CollectFieldErrors(GoalFieldsOk(today, input), ValidateCategoryOnCreate(s, requester, input.category));
    var id := s.nextGoal;
    var g := Goal(input.title, input.description, input.dueDate, StatusOrDefault(input.status),
                  PriorityOrDefault(input.priority), c, requester);
    Ok(Created(s.(goals := s.goals[id := g], nextGoal := id + 1), id))
  }

  /** The body of a comment create. */
  datatype CommentInput = CommentInput(text: string, goal: GoalId)

  /** GoalCommentCreateSerializer validation and save: the text must not be
      blank, and the goal must pass validate_goal. */
  function CreateComment(s: Store, requester: UserId, input: CommentInput): (r: Result<Created>)
    requires Valid(s)
    ensures r.Ok? <==> |input.text| > 0 && ValidateGoalForComment(s, requester, input.goal).Ok?
    ensures r == Err(PermissionDenied) <==> ValidateGoalForComment(s, requester, input.goal) == Err(PermissionDenied)
    ensures r.Err? ==> r.error == ValidationError || r.error == PermissionDenied
    ensures input.goal in s.goals && s.goals[input.goal].status == Archived ==> r == Err(ValidationError)
    ensures r.Ok? ==>
      var t := r.value.store; var id := r.value.id;
      && id !in s.comments
      && t == s.(comments := s.comments[id := Comment(input.text, input.goal, requester)], nextComment := t.nextComment)
      && Valid(t)
      && (CascadeClosed(s) ==> CascadeClosed(t))
  {
    var g :- CollectFieldErrors(|input.text| > 0, ValidateGoalForComment(s, requester, input.goal));
    var id := s.nextComment;
    Ok(Created(s.(comments := s.comments[id := Comment(input.text, g, requester)], nextComment := id + 1), id))
  }

  // ---------------------------------------------------------------------
  // Category update

  /** The body of a category update through GoalCategorySerializer. `user`
      is read-only there; `title`, `board` and `is_deleted` are writable. */
  datatype CategoryPatch = CategoryPatch(title: Option<string>, board: Option<BoardId>, isDeleted: Option<bool>)

  /** A PUT (not partial) must carry every required field: the title and
      the board. A PATCH may leave any field out. */
  predicate CategoryFieldsPresent(partial: bool, patch: CategoryPatch) {
    partial || (patch.title.Some? && patch.board.Some?)
  }

  /** GoalCategorySerializer validation of an update of category `c`: the
      plain fields are collected, and validate_board runs only when a board
      is submitted. The result is the category's board after the update. */
  function ValidateCategoryPatch(s: Store, requester: UserId, c: Category, patch: CategoryPatch, partial: bool)
    : (r: Result<BoardId>)
    ensures r.Ok? <==>
      && CategoryFieldsPresent(partial, patch)
      && (patch.title.None? || TitleOk(patch.title.value))
      && (patch.board.None? || ValidateBoard(s, requester, patch.board.value).Ok?)
    ensures r.Ok? ==> r.value == patch.board.GetOr(c.board)
    ensures r.Ok? && patch.board.Some? ==> BoardFound(s, r.value) && CanWrite(s, r.value, requester)
    ensures r == Err(PermissionDenied) <==>
      patch.board.Some? && ValidateBoard(s, requester, patch.board.value) == Err(PermissionDenied)
    ensures r.Err? ==> r.error == ValidationError || r.error == PermissionDenied
  {
    var related := if patch.board.None? then Ok(c.board) else ValidateBoard(s, requester, patch.board.value);
    CollectFieldErrors(CategoryFieldsPresent(partial, patch) && (patch.title.None? || TitleOk(patch.title.value)),
                       related)
  }

  // ---------------------------------------------------------------------
  // Goal update

  /** The body of a goal update: only the fields present are validated and
      written. Description and due date may be set to null. */
  datatype GoalPatch = GoalPatch(
    title: Option<string>,
    description: Option<Option<string>>,
    dueDate: Option<Option<Date>>,
    status: Option<int>,
    priority: Option<int>,
    category: Option<CategoryId>)

  /** A PUT (not partial) must carry the goal's required fields, its title
      and its category; the others are nullable or have a default. A PATCH
      may leave any field out. */
  predicate GoalFieldsPresent(partial: bool, patch: GoalPatch) {
    partial || (patch.title.Some? && patch.category.Some?)
  }

  /** The fields of a goal update other than its category. */
  predicate PatchFieldsOk(today: Date, partial: bool, patch: GoalPatch) {
    && GoalFieldsPresent(partial, patch)
    && (patch.title.None? || TitleOk(patch.title.value))
    && (patch.dueDate.None? || ValidateDueDate(today, patch.dueDate.value).Ok?)
    && StatusChoiceOk(patch.status)
    && PriorityChoiceOk(patch.priority)
  }

  /** The goal with the patch's fields written over it and `category` as
      its category. */
  function PatchGoal(g: Goal, patch: GoalPatch, category: CategoryId): (h: Goal)
    requires StatusChoiceOk(patch.status) && PriorityChoiceOk(patch.priority)
  {
    g.(title := patch.title.GetOr(g.title),
       description := patch.description.GetOr(g.description),
       dueDate := patch.dueDate.GetOr(g.dueDate),
       status := if patch.status.None? then g.status else StatusOrDefault(patch.status),
       priority := if patch.priority.None? then g.priority else PriorityOrDefault(patch.priority),
       category := category)
  }
}

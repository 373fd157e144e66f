/** The records of the goal tracker and the store that holds them: boards,
    their participant rows, categories, goals and comments, each table keyed
    by an auto-incremented id. */
module Models {
  import opened Outcomes

  type UserId = nat
  type BoardId = nat
  type CategoryId = nat
  type GoalId = nat
  type CommentId = nat

  /** A calendar day, counted from an arbitrary epoch. */
  type Date = int

  /** max_length of GoalCategory.title and of Goal.title. */
  const TitleMaxLength: nat := 255

  /** Goal.Status, an IntegerChoices enumeration. */
  datatype Status = ToDo | InProgress | Done | Archived

  /** Goal.Priority, an IntegerChoices enumeration. */
  datatype Priority = Low | Medium | High | Critical

  /** Decodes a submitted status integer; anything but the four choices is
      refused by the field's ChoiceField. */
  function StatusFromCode(n: int): (r: Option<Status>)
    ensures r.Some? <==> 1 <= n <= 4
  {
    if n == 1 then Some(ToDo)
    else if n == 2 then Some(InProgress)
    else if n == 3 then Some(Done)
    else if n == 4 then Some(Archived)
    else None
  }

  /** The integer stored for a status. */
  function StatusCode(s: Status): (n: int)
    ensures 1 <= n <= 4
    ensures StatusFromCode(n) == Some(s)
  {
    match s
    case ToDo => 1
    case InProgress => 2
    case Done => 3
    case Archived => 4
  }

  function PriorityFromCode(n: int): (r: Option<Priority>)
    ensures r.Some? <==> 1 <= n <= 4
  {
    if n == 1 then Some(Low)
    else if n == 2 then Some(Medium)
    else if n == 3 then Some(High)
    else if n == 4 then Some(Critical)
    else None
  }

  /** The integer stored for a priority. */
  function PriorityCode(p: Priority): (n: int)
    ensures 1 <= n <= 4
    ensures PriorityFromCode(n) == Some(p)
  {
    match p
    case Low => 1
    case Medium => 2
    case High => 3
    case Critical => 4
  }

  /** BoardParticipant.Role. */
  datatype Role = Owner | Writer | Reader

  /** The roles that may create and change content on a board
      (`role__in=[owner, writer]`). */
  predicate IsWriterRole(role: Role) {
    role == Owner || role == Writer
  }

  datatype Board = Board(title: string, isDeleted: bool)

  /** One row of the BoardParticipant table. */
  datatype Participant = Participant(board: BoardId, user: UserId, role: Role)

  datatype Category = Category(title: string, board: BoardId, author: UserId, isDeleted: bool)

  datatype Goal = Goal(
    title: string,
    description: Option<string>,
    dueDate: Option<Date>,
    status: Status,
    priority: Priority,
    category: CategoryId,
    author: UserId)

  datatype Comment = Comment(text: string, goal: GoalId, author: UserId)

  /** The facts about BoardParticipant that the model treats as parameters:
      the role a board's creator is enrolled with, the roles a roster entry
      may carry (`editable_roles`), and whether (board, user) is unique, so
      that a conflicting bulk insert is skipped. */
  datatype Config = Config(defaultRole: Role, editableRoles: set<Role>, uniqueMembership: bool)

  /** The whole database. Participant rows are kept in insertion order and
      carry no id; every other table is a map from id to record, and the
      `next*` counters are the tables' id sequences. */
  datatype Store = Store(
    users: set<UserId>,
    boards: map<BoardId, Board>,
    participants: seq<Participant>,
    categories: map<CategoryId, Category>,
    goals: map<GoalId, Goal>,
    comments: map<CommentId, Comment>,
    nextBoard: nat,
    nextCategory: nat,
    nextGoal: nat,
    nextComment: nat)

  /** A new row and the id it received. */
  datatype Created = Created(store: Store, id: nat)

  /** What the database guarantees of every committed state: ids come from
      the sequences, the board, category and goal foreign keys resolve, and
      titles fit their column. The user foreign keys are not tracked. */
  predicate Valid(s: Store) {
    && (forall b :: b in s.boards ==> b < s.nextBoard)
    && (forall c :: c in s.categories ==> c < s.nextCategory)
    && (forall g :: g in s.goals ==> g < s.nextGoal)
    && (forall k :: k in s.comments ==> k < s.nextComment)
    && (forall p :: p in s.participants ==> p.board in s.boards)
    && (forall c :: c in s.categories ==>
          s.categories[c].board in s.boards && |s.categories[c].title| <= TitleMaxLength)
    && (forall g :: g in s.goals ==>
          s.goals[g].category in s.categories && |s.goals[g].title| <= TitleMaxLength)
    && (forall k :: k in s.comments ==> s.comments[k].goal in s.goals)
  }

  /** The soft-delete cascade is closed: a deleted board has only deleted
      categories, and a deleted category has only archived goals. */
  predicate CascadeClosed(s: Store) {
    && (forall c :: c in s.categories && BoardIsDeleted(s, s.categories[c].board) ==>
          s.categories[c].isDeleted)
    && (forall g :: g in s.goals && CategoryIsDeleted(s, s.goals[g].category) ==>
          s.goals[g].status == Archived)
  }

  /** The board exists and is soft-deleted. */
  predicate BoardIsDeleted(s: Store, b: BoardId) {
    b in s.boards && s.boards[b].isDeleted
  }

  /** The board exists and is live: what BoardView's queryset finds, whoever
      asks. */
  predicate BoardFound(s: Store, b: BoardId) {
    b in s.boards && !s.boards[b].isDeleted
  }

  /** The category exists and is soft-deleted. */
  predicate CategoryIsDeleted(s: Store, c: CategoryId) {
    c in s.categories && s.categories[c].isDeleted
  }

  /** The user has some participant row on the board (the
      `participants__user` join). */
  predicate IsMember(s: Store, b: BoardId, u: UserId) {
    exists p :: p in s.participants && p.board == b && p.user == u
  }

  /** The user has an owner or writer row on the board. */
  predicate CanWrite(s: Store, b: BoardId, u: UserId) {
    exists p :: p in s.participants && p.board == b && p.user == u && IsWriterRole(p.role)
  }

  /** The board a goal lives on, `goal.category.board`. */
  function BoardOfGoal(s: Store, g: GoalId): BoardId
    requires Valid(s) && g in s.goals
  {
    s.categories[s.goals[g].category].board
  }

  /** A title the CharField accepts: not blank, at most 255 characters. */
  predicate TitleOk(t: string) {
    0 < |t| <= TitleMaxLength
  }
}

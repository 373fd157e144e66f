/** The two ORM statements the roster update issues against the
    BoardParticipant table: a filtered delete, and a bulk insert that skips a
    row when it conflicts with a unique constraint. Rows are kept in table
    order; whether (board, user) is unique is a parameter. */
module ParticipantTable {
  import opened Models

  /** The rows of user `u` on board `b`, in table order. */
  function RowsOf(rows: seq<Participant>, b: BoardId, u: UserId): (r: seq<Participant>)
    ensures forall p :: p in r <==> p in rows && p.board == b && p.user == u
    ensures |r| <= |rows|
    decreases |rows|
  {
    if rows == [] then []
    else
      var last := rows[|rows| - 1];
      assert rows == rows[..|rows| - 1] + [last];
      RowsOf(rows[..|rows| - 1], b, u) + (if last.board == b && last.user == u then [last] else [])
  }

  /** At most one row per (board, user): what a unique constraint keeps. */
  ghost predicate UniqueMembership(rows: seq<Participant>) {
    forall b, u :: |RowsOf(rows, b, u)| <= 1
  }

  /** `filter(board=b).exclude(user=u).delete()`: removes every row of board
      `b` except those of user `u`, and keeps the order of the rest. */
  function DeleteOthers(rows: seq<Participant>, b: BoardId, u: UserId): (r: seq<Participant>)
    ensures forall p :: p in r <==> p in rows && (p.board != b || p.user == u)
    ensures |r| <= |rows|
    decreases |rows|
  {
    if rows == [] then []
    else
      var last := rows[|rows| - 1];
      assert rows == rows[..|rows| - 1] + [last];
      DeleteOthers(rows[..|rows| - 1], b, u) + (if last.board != b || last.user == u then [last] else [])
  }

  /** One row of `bulk_create(..., ignore_conflicts=True)`: with a unique
      (board, user) constraint a row whose pair is already present is
      skipped; otherwise it is appended. */
  function InsertIgnoringConflict(rows: seq<Participant>, p: Participant, unique: bool): (r: seq<Participant>)
    ensures r == rows || r == rows + [p]
    ensures r == rows <==> unique && RowsOf(rows, p.board, p.user) != []
  {
    if unique && RowsOf(rows, p.board, p.user) != [] then rows else rows + [p]
  }

  /** `bulk_create(news, ignore_conflicts=True)`: the rows are inserted in
      order, each one skipped when it conflicts. Existing rows are never
      changed, and every appended row is one of `news`. */
  function BulkCreate(rows: seq<Participant>, news: seq<Participant>, unique: bool): (r: seq<Participant>)
    ensures rows <= r
    ensures |r| <= |rows| + |news|
    ensures forall p :: p in r ==> p in rows || p in news
    ensures !unique ==> r == rows + news
    decreases |news|
  {
    if news == [] then rows
    else
      var init := news[..|news| - 1];
      var last := news[|news| - 1];
      assert news == init + [last];
      assert rows + news == (rows + init) + [last];
      InsertIgnoringConflict(BulkCreate(rows, init, unique), last, unique)
  }

  /** The first of a run of rows, the one that wins under a unique constraint. */
  function FirstOnly(rows: seq<Participant>): (r: seq<Participant>)
    ensures |r| == if rows == [] then 0 else 1
    ensures rows != [] ==> r == [rows[0]]
  {
    if rows == [] then [] else [rows[0]]
  }

  /** Appending one row adds it to its own pair's rows and to no other. */
  lemma RowsOfSnoc(rows: seq<Participant>, p: Participant, b: BoardId, u: UserId)
    ensures RowsOf(rows + [p], b, u) == RowsOf(rows, b, u) + (if p.board == b && p.user == u then [p] else [])
  {
    assert (rows + [p])[..|rows + [p]| - 1] == rows;
  }

  /** The rows of a pair are present exactly when some row has that pair. */
  lemma RowsOfNonEmpty(rows: seq<Participant>, b: BoardId, u: UserId)
    ensures RowsOf(rows, b, u) != [] <==> exists p :: p in rows && p.board == b && p.user == u
  {
    if RowsOf(rows, b, u) != [] {
      assert RowsOf(rows, b, u)[0] in RowsOf(rows, b, u);
    }
  }

  /** After the delete, user `u` keeps all their rows on `b`, everybody else
      has none there, and rows of other boards are exactly as before. */
  lemma {:induction false} DeleteOthersRows(rows: seq<Participant>, b: BoardId, u: UserId, c: BoardId, v: UserId)
    ensures RowsOf(DeleteOthers(rows, b, u), c, v) == if c == b && v != u then [] else RowsOf(rows, c, v)
    decreases |rows|
  {
    if rows != [] {
      var init := rows[..|rows| - 1];
      var last := rows[|rows| - 1];
      assert rows == init + [last];
      DeleteOthersRows(init, b, u, c, v);
      RowsOfSnoc(init, last, c, v);
      if last.board != b || last.user == u {
        assert DeleteOthers(rows, b, u) == DeleteOthers(init, b, u) + [last];
        RowsOfSnoc(DeleteOthers(init, b, u), last, c, v);
      } else {
        assert DeleteOthers(rows, b, u) == DeleteOthers(init, b, u);
      }
    }
  }

  /** The rows of a pair in a concatenation are its rows in each part. */
  lemma {:induction false} RowsOfAppend(xs: seq<Participant>, ys: seq<Participant>, b: BoardId, u: UserId)
    ensures RowsOf(xs + ys, b, u) == RowsOf(xs, b, u) + RowsOf(ys, b, u)
    decreases |ys|
  {
    if ys != [] {
      var init := ys[..|ys| - 1];
      var last := ys[|ys| - 1];
      assert ys == init + [last];
      assert xs + ys == (xs + init) + [last];
      RowsOfAppend(xs, init, b, u);
      RowsOfSnoc(xs + init, last, b, u);
      RowsOfSnoc(init, last, b, u);
    } else {
      assert xs + ys == xs;
    }
  }

  /** Without a unique constraint every submitted row of a pair is appended
      after the pair's existing rows. */
  lemma BulkCreateRowsPlain(rows: seq<Participant>, news: seq<Participant>, b: BoardId, u: UserId)
    ensures RowsOf(BulkCreate(rows, news, false), b, u) == RowsOf(rows, b, u) + RowsOf(news, b, u)
  {
    RowsOfAppend(rows, news, b, u);
  }

  /** With a unique constraint a pair that already has a row keeps exactly
      that row, and a pair that has none gains its first submitted row. */
  lemma {:induction false} BulkCreateRowsUnique(rows: seq<Participant>, news: seq<Participant>, b: BoardId, u: UserId)
    ensures RowsOf(BulkCreate(rows, news, true), b, u) ==
      if RowsOf(rows, b, u) != [] then RowsOf(rows, b, u) else FirstOnly(RowsOf(news, b, u))
    decreases |news|
  {
    if news != [] {
      var init := news[..|news| - 1];
      var last := news[|news| - 1];
      assert news == init + [last];
      var prev := BulkCreate(rows, init, true);
      BulkCreateRowsUnique(rows, init, b, u);
      RowsOfSnoc(init, last, b, u);
      if InsertIgnoringConflict(prev, last, true) == prev + [last] {
        RowsOfSnoc(prev, last, b, u);
      } else {
        BulkCreateRowsUnique(rows, init, last.board, last.user);
        if last.board == b && last.user == u {
          assert RowsOf(prev, b, u) != [];
        }
      }
    }
  }

  /** What the bulk insert does to the rows of one (board, user) pair, with
      or without a unique constraint. */
  lemma BulkCreateRows(rows: seq<Participant>, news: seq<Participant>, unique: bool, b: BoardId, u: UserId)
    ensures RowsOf(BulkCreate(rows, news, unique), b, u) ==
      if !unique then RowsOf(rows, b, u) + RowsOf(news, b, u)
      else if RowsOf(rows, b, u) != [] then RowsOf(rows, b, u)
      else FirstOnly(RowsOf(news, b, u))
  {
    if unique {
      BulkCreateRowsUnique(rows, news, b, u);
    } else {
      BulkCreateRowsPlain(rows, news, b, u);
    }
  }

  /** With a unique constraint the bulk insert never creates a second row
      for a pair. */
  lemma BulkCreateKeepsUnique(rows: seq<Participant>, news: seq<Participant>)
    requires UniqueMembership(rows)
    ensures UniqueMembership(BulkCreate(rows, news, true))
  {
    forall b, u
      ensures |RowsOf(BulkCreate(rows, news, true), b, u)| <= 1
    {
      BulkCreateRowsUnique(rows, news, b, u);
    }
  }

  /** Every submitted (board, user) pair has a row after the bulk insert,
      whether or not its own row was skipped. */
  lemma BulkCreateCoversNews(rows: seq<Participant>, news: seq<Participant>, unique: bool, p: Participant)
    requires p in news
    ensures RowsOf(BulkCreate(rows, news, unique), p.board, p.user) != []
  {
    BulkCreateRows(rows, news, unique, p.board, p.user);
    assert p in RowsOf(news, p.board, p.user);
  }
}

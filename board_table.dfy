/**
 * The `boards` and `users` tables of the vuestagram back end, and the rows the
 * board queries produce: `boards.*` joined with the owning user's `users.name`.
 */
module BoardTable {

  /** A row of `boards`. */
  datatype Board = Board(id: int, userId: int, content: string, img: string)

  /** A row of `boards` with the `name` column of the joined `users` row. */
  datatype Row = Row(id: int, userId: int, content: string, img: string, name: string)

  /**
   * The database: the `boards` rows in storage order and the `users` rows as a
   * map from `users.id` to `users.name`.
   */
  datatype Table = Table(boards: seq<Board>, users: map<int, string>)

  predicate UniqueBoardIds(s: seq<Board>)
  {
    forall i, j :: 0 <= i < |s| && 0 <= j < |s| && i != j ==> s[i].id != s[j].id
  }

  predicate UniqueIds(s: seq<Row>)
  {
    forall i, j :: 0 <= i < |s| && 0 <= j < |s| && i != j ==> s[i].id != s[j].id
  }

  /** `boards.id` is the primary key. */
  predicate Valid(t: Table)
  {
    UniqueBoardIds(t.boards)
  }

  function Attach(b: Board, name: string): Row
  {
    Row(b.id, b.userId, b.content, b.img, name)
  }

  function Detach(r: Row): Board
  {
    Board(r.id, r.userId, r.content, r.img)
  }

  /**
   * `join('users', 'users.id', '=', 'boards.user_id')` selecting `boards.*` and
   * `users.name`: an inner join, so a board whose owner is not in `users` drops out.
   */
  function Join(boards: seq<Board>, users: map<int, string>): (r: seq<Row>)
    ensures |r| <= |boards|
    ensures forall x :: x in r ==> x.userId in users && x.name == users[x.userId] && Detach(x) in boards
    ensures forall b :: b in boards && b.userId in users ==> Attach(b, users[b.userId]) in r
    ensures UniqueBoardIds(boards) ==> UniqueIds(r)
  {
    if boards == [] then []
    else
      var rest := Join(boards[1..], users);
      var b := boards[0];
      assert forall x :: x in rest ==> Detach(x) in boards[1..];
      if b.userId in users then
        assert UniqueBoardIds(boards) ==> UniqueIds([Attach(b, users[b.userId])] + rest) by {
          if UniqueBoardIds(boards) {
            assert UniqueBoardIds(boards[1..]);
            forall i | 0 <= i < |rest| ensures rest[i].id != b.id {
              assert rest[i] in rest;
              var k :| 0 <= k < |boards[1..]| && boards[1..][k] == Detach(rest[i]);
              assert boards[k + 1] == Detach(rest[i]);
            }
            ConsUniqueIds(Attach(b, users[b.userId]), rest);
          }
        }
        [Attach(b, users[b.userId])] + rest
      else
        rest
  }

  lemma ConsUniqueIds(x: Row, s: seq<Row>)
    requires UniqueIds(s)
    requires forall i :: 0 <= i < |s| ==> s[i].id != x.id
    ensures UniqueIds([x] + s)
  {
    var r := [x] + s;
    forall i, j | 0 <= i < |r| && 0 <= j < |r| && i != j ensures r[i].id != r[j].id {
      if i > 0 { assert r[i] == s[i - 1]; }
      if j > 0 { assert r[j] == s[j - 1]; }
    }
  }

  /** The joined rows of a table. */
  function Joined(t: Table): seq<Row>
  {
    Join(t.boards, t.users)
  }

  /** Adding a board at the end of the table adds its joined row at the end of the join. */
  lemma {:induction false} JoinAppend(boards: seq<Board>, b: Board, users: map<int, string>)
    requires b.userId in users
    ensures Join(boards + [b], users) == Join(boards, users) + [Attach(b, users[b.userId])]
  {
    if boards != [] {
      assert (boards + [b])[1..] == boards[1..] + [b];
      JoinAppend(boards[1..], b, users);
    }
  }
}

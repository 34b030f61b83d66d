/**
 * BoardController of the vuestagram back end: the first page of the board
 * feed (`index`), the page after a cursor (`moreIndex`) and posting a board
 * (`store`).
 */
module BoardController {
  import opened Outcomes
  import opened BoardTable
  import opened BoardOrder

  /** `limit(20)`: the number of boards one page holds. */
  const PageSize: nat := 20

  function Min(a: int, b: int): int { if a <= b then a else b }

  /** `limit(PageSize)` applied to sorted rows. */
  function Page(s: seq<Row>): (r: seq<Row>)
    ensures |r| == Min(|s|, PageSize) && r == s[..|r|]
  {
    s[..Min(|s|, PageSize)]
  }

  /**
   * The first page of the sorted rows of xs: rows of xs, ids never
   * increasing, and a row of xs left out has an id no larger than any row kept.
   */
  lemma SortedPage(xs: seq<Row>)
    ensures var r := Page(SortDesc(xs));
            && (forall x :: x in r ==> x in xs)
            && NonIncreasing(r)
            && (forall x, y :: x in xs && x !in r && y in r ==> x.id <= y.id)
  {
    var s := SortDesc(xs);
    SortDescNonIncreasing(xs);
    PageRows(s, xs);
    PageKeepsLargest(s, xs);
  }

  /** A page of a re-ordering of xs holds only rows of xs. */
  lemma PageRows(s: seq<Row>, xs: seq<Row>)
    requires multiset(s) == multiset(xs)
    ensures forall x :: x in Page(s) ==> x in xs
  {
    var r := Page(s);
    forall x | x in r ensures x in xs {
      var i :| 0 <= i < |r| && r[i] == x;
      assert s[i] == x;
      assert x in multiset(s);
    }
  }

  /** A page of a non-increasing re-ordering of xs keeps rows with ids at least those it leaves out. */
  lemma PageKeepsLargest(s: seq<Row>, xs: seq<Row>)
    requires multiset(s) == multiset(xs) && NonIncreasing(s)
    ensures forall x, y :: x in xs && x !in Page(s) && y in Page(s) ==> x.id <= y.id
  {
    var r := Page(s);
    var n := |r|;
    forall x, y | x in xs && x !in r && y in r ensures x.id <= y.id {
      assert x in multiset(xs);
      var k :| 0 <= k < |s| && s[k] == x;
      assert n <= k;
      var i :| 0 <= i < n && r[i] == y;
      assert s[i] == y;
    }
  }


  /** Rows with equal ids in a sequence of unique ids are the same row. */
  lemma SameIdSameRow(xs: seq<Row>, x: Row, y: Row)
    requires UniqueIds(xs) && x in xs && y in xs && x.id == y.id
    ensures x == y
  {
    var a :| 0 <= a < |xs| && xs[a] == x;
    var b :| 0 <= b < |xs| && xs[b] == y;
  }

  /**
   * index(): the boards joined with their owners, newest id first, at most
   * PageSize of them.
   */
  function Index(t: Table): (r: seq<Row>)
    ensures |r| == Min(|Joined(t)|, PageSize)
    ensures forall x :: x in r ==> x in Joined(t)
    ensures NonIncreasing(r)
    ensures forall x, y :: x in Joined(t) && x !in r && y in r ==> x.id <= y.id
  {
    SortedPage(Joined(t));
    Page(SortDesc(Joined(t)))
  }

  /**
   * moreIndex($id): the joined boards whose id is below the cursor, newest id
   * first, at most PageSize of them.
   */
  function MoreIndex(t: Table, id: int): (r: seq<Row>)
    ensures |r| == Min(|Below(Joined(t), id)|, PageSize)
    ensures forall x :: x in r ==> x in Joined(t) && x.id < id
    ensures NonIncreasing(r)
    ensures forall x, y :: x in Joined(t) && x.id < id && x !in r && y in r ==> x.id <= y.id
  {
    BelowMembers(Joined(t), id);
    SortedPage(Below(Joined(t), id));
    Page(SortDesc(Below(Joined(t), id)))
  }

  /** With `boards.id` as primary key the first page strictly descends and holds the newest boards. */
  lemma IndexNewest(t: Table)
    requires Valid(t)
    ensures StrictlyDesc(Index(t))
    ensures forall x, y :: x in Joined(t) && x !in Index(t) && y in Index(t) ==> x.id < y.id
  {
    SortDescStrictlyDesc(Joined(t));
    forall x, y | x in Joined(t) && x !in Index(t) && y in Index(t) ensures x.id < y.id {
      if x.id == y.id {
        SameIdSameRow(Joined(t), x, y);
      }
    }
  }

  /** With `boards.id` as primary key a later page strictly descends and holds the newest boards below the cursor. */
  lemma MoreIndexNewest(t: Table, id: int)
    requires Valid(t)
    ensures StrictlyDesc(MoreIndex(t, id))
    ensures forall x, y :: x in Joined(t) && x.id < id && x !in MoreIndex(t, id) && y in MoreIndex(t, id) ==> x.id < y.id
  {
    var j := Joined(t);
    var sorted := SortDesc(Below(j, id));
    assert StrictlyDesc(sorted) by {
      SortDescStrictlyDesc(j);
      SortBelow(j, id);
      BelowStrictlyDesc(SortDesc(j), id);
    }
    assert MoreIndex(t, id) == sorted[..Min(|sorted|, PageSize)];
    var r := MoreIndex(t, id);
    forall x, y | x in j && x.id < id && x !in r && y in r ensures x.id < y.id {
      if x.id == y.id {
        SameIdSameRow(j, x, y);
      }
    }
  }

  /** A later page is empty exactly when no joined board lies below the cursor. */
  lemma MoreIndexEmptyIff(t: Table, id: int)
    ensures MoreIndex(t, id) == [] <==> forall x :: x in Joined(t) ==> x.id >= id
  {
    var below := Below(Joined(t), id);
    BelowMembers(Joined(t), id);
    if below != [] {
      assert below[0] in below;
    }
  }

  // ---------------------------------------------------------------------------
  // store
  // ---------------------------------------------------------------------------

  /** An uploaded file; `isImage` is whether the Validator's `image` rule accepts it. */
  datatype Upload = Upload(isImage: bool)

  /** Why store stops: the validation exception with its code, or no row to write to. */
  datatype StoreError = ValidationFailed(code: string) | NoRowSelected

  /** The code MyValidateException carries when validation fails. */
  const ValidationErrorCode: string := "E01"

  const MaxContentLength: nat := 200

  /** `content` is required with 1 to 200 characters, `img` is required and an image. */
  predicate PassesValidation(content: Option<string>, img: Option<Upload>)
  {
    && content.Some? && 1 <= |content.value| <= MaxContentLength
    && img.Some? && img.value.isImage
  }

  /** The first board, in storage order, whose `boards.id` equals id. */
  function FirstWithId(boards: seq<Board>, id: int): (r: Option<nat>)
    ensures r.Some? ==> r.value < |boards| && boards[r.value].id == id
    ensures r.Some? ==> forall j :: 0 <= j < r.value ==> boards[j].id != id
    ensures r.None? <==> forall j :: 0 <= j < |boards| ==> boards[j].id != id
  {
    if boards == [] then None
    else if boards[0].id == id then Some(0)
    else match FirstWithId(boards[1..], id)
      case None => None
      case Some(k) => Some(k + 1)
  }

  /**
   * The row store writes to: `join('users', 'users.id', '=', 'boards.id')`
   * `->where('users.id', Auth::id())->first()`, i.e. the board whose own id is
   * the authenticated user's id, provided that user exists.
   */
  function SelectForStore(t: Table, authId: int): (r: Option<nat>)
    ensures r.Some? ==> r.value < |t.boards| && t.boards[r.value].id == authId && authId in t.users
    ensures r.None? <==> authId !in t.users || forall j :: 0 <= j < |t.boards| ==> t.boards[j].id != authId
  {
    if authId in t.users then FirstWithId(t.boards, authId) else None
  }

  /** What a successful store leaves behind: the new table and the response row. */
  datatype Stored = Stored(table: Table, row: Row)

  /**
   * store as the controller is written: validate, then overwrite the selected
   * row's content, img and user_id and save it.
   */
  function StoreAsWritten(t: Table, content: Option<string>, img: Option<Upload>, path: string, authId: int)
    : (r: Result<Stored, StoreError>)
    ensures !PassesValidation(content, img) <==> r == Err(ValidationFailed(ValidationErrorCode))
    ensures r == Err(NoRowSelected) <==>
              PassesValidation(content, img) && (authId !in t.users || forall j :: 0 <= j < |t.boards| ==> t.boards[j].id != authId)
    ensures r.Ok? <==> PassesValidation(content, img) && SelectForStore(t, authId).Some?
    ensures r.Ok? ==>
              && authId in t.users
              && r.value.table.users == t.users
              && r.value.row == Row(authId, authId, content.value, path, t.users[authId])
              && exists i :: 0 <= i < |t.boards| && t.boards[i].id == authId &&
                             r.value.table.boards == t.boards[i := Board(authId, authId, content.value, path)]
  {
    if !PassesValidation(content, img) then Err(ValidationFailed(ValidationErrorCode))
    else match SelectForStore(t, authId)
      case None => Err(NoRowSelected)
      case Some(i) =>
        var b := t.boards[i].(content := content.value, img := path, userId := authId);
        Ok(Stored(t.(boards := t.boards[i := b]), Attach(b, t.users[authId])))
  }

  /** Store never adds a row, so it keeps `boards.id` a primary key. */
  lemma StoreAsWrittenKeepsValid(t: Table, content: Option<string>, img: Option<Upload>, path: string, authId: int)
    requires Valid(t) && StoreAsWritten(t, content, img, path, authId).Ok?
    ensures Valid(StoreAsWritten(t, content, img, path, authId).value.table)
    ensures |StoreAsWritten(t, content, img, path, authId).value.table.boards| == |t.boards|
  {
  }

  /**
   * store as its "insert" comment says it is meant: a new board with a fresh
   * id (the auto-increment value, above every existing id) owned by the
   * authenticated user.
   */
  function StoreIntended(t: Table, content: Option<string>, img: Option<Upload>, path: string, authId: int, newId: int)
    : (r: Result<Stored, StoreError>)
    requires authId in t.users
    requires forall b :: b in t.boards ==> b.id < newId
    ensures !PassesValidation(content, img) <==> r == Err(ValidationFailed(ValidationErrorCode))
    ensures PassesValidation(content, img) <==> r.Ok?
    ensures r.Ok? ==>
              && r.value.table == t.(boards := t.boards + [Board(newId, authId, content.value, path)])
              && r.value.row == Row(newId, authId, content.value, path, t.users[authId])
  {
    if !PassesValidation(content, img) then Err(ValidationFailed(ValidationErrorCode))
    else
      var b := Board(newId, authId, content.value, path);
      Ok(Stored(t.(boards := t.boards + [b]), Attach(b, t.users[authId])))
  }

  /** The intended store keeps ids unique and makes the new board the head of the first page. */
  lemma StoreIntendedHeadsIndex(t: Table, content: Option<string>, img: Option<Upload>, path: string, authId: int, newId: int)
    requires Valid(t) && authId in t.users
    requires forall b :: b in t.boards ==> b.id < newId
    requires PassesValidation(content, img)
    ensures StoreIntended(t, content, img, path, authId, newId).Ok?
    ensures var s := StoreIntended(t, content, img, path, authId, newId).value;
            && Valid(s.table)
            && Joined(s.table) == Joined(t) + [s.row]
            && SortDesc(Joined(s.table)) == [s.row] + SortDesc(Joined(t))
            && Index(s.table)[0] == s.row
  {
    var s := StoreIntended(t, content, img, path, authId, newId).value;
    var b := Board(newId, authId, content.value, path);
    assert s.table == t.(boards := t.boards + [b]) && s.row == Attach(b, t.users[authId]);
    JoinAppend(t.boards, b, t.users);
    assert IdsBelow(Joined(t), newId) by {
      forall i | 0 <= i < |Joined(t)| ensures Joined(t)[i].id < newId {
        assert Joined(t)[i] in Joined(t);
        assert Detach(Joined(t)[i]) in t.boards;
      }
    }
    SortAppendLargest(Joined(t), s.row);
    assert Index(s.table) == Page([s.row] + SortDesc(Joined(t)));
    assert UniqueBoardIds(t.boards + [b]) by {
      var bs := t.boards + [b];
      forall i, j | 0 <= i < |bs| && 0 <= j < |bs| && i != j ensures bs[i].id != bs[j].id {
        if i == |t.boards| { assert bs[j] in t.boards; }
        else if j == |t.boards| { assert bs[i] in t.boards; }
      }
    }
  }

  /**
   * The join in store matches `users.id` with `boards.id`: user 1 posting
   * overwrites board 1, which belongs to user 2, and no board is added.
   */
  lemma StoreOverwritesAnotherUsersBoard()
    ensures var t := Table([Board(1, 2, "first post", "img/a.png"), Board(2, 1, "second post", "img/b.png")],
                           map[1 := "kim", 2 := "lee"]);
            var r := StoreAsWritten(t, Some("new post"), Some(Upload(true)), "img/c.png", 1);
            && r.Ok?
            && r.value.table.boards == [Board(1, 1, "new post", "img/c.png"), Board(2, 1, "second post", "img/b.png")]
            && |r.value.table.boards| == |t.boards|
            && (forall b :: b in r.value.table.boards ==> b.userId == 1)
  {
  }

  /** A valid post by an existing user fails when no board happens to carry that user's id. */
  lemma StoreFailsWithoutBoardOfSameId()
    ensures var t := Table([Board(1, 3, "first post", "img/a.png")], map[3 := "park"]);
            StoreAsWritten(t, Some("new post"), Some(Upload(true)), "img/c.png", 3) == Err(NoRowSelected)
  {
  }

  // ---------------------------------------------------------------------------
  // The database store writes to
  // ---------------------------------------------------------------------------

  /** The `boards` and `users` tables as state that store updates in place. */
  class Database {
    var boards: seq<Board>
    var users: map<int, string>

    function Snapshot(): Table
      reads this
    {
      Table(boards, users)
    }

    constructor (t: Table)
      ensures Snapshot() == t
    {
      boards := t.boards;
      users := t.users;
    }

    /**
     * store(Request): validate, (save the image, whose path is given), select
     * the row, assign content, img and user_id one by one, then save().
     */
    method Store(content: Option<string>, img: Option<Upload>, path: string, authId: int)
      returns (r: Result<Row, StoreError>)
      modifies this
      ensures users == old(users)
      ensures !PassesValidation(content, img) ==>
                r == Err(ValidationFailed(ValidationErrorCode)) && boards == old(boards)
      ensures match StoreAsWritten(old(Snapshot()), content, img, path, authId)
              case Err(e) => r == Err(e) && boards == old(boards)
              case Ok(s) => r == Ok(s.row) && Snapshot() == s.table
    {
      if !PassesValidation(content, img) {
        r := Err(ValidationFailed(ValidationErrorCode));
        return;
      }
      var selected := SelectForStore(Snapshot(), authId);
      if selected.None? {
        r := Err(NoRowSelected);
        return;
      }
      var i := selected.value;
      var boardModel := boards[i];
      boardModel := boardModel.(content := content.value);
      boardModel := boardModel.(img := path);
      boardModel := boardModel.(userId := authId);
      boards := boards[i := boardModel];
      r := Ok(Attach(boardModel, users[authId]));
    }
  }
}

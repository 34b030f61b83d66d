/**
 * How the pages of the board feed fit together when the client asks for the
 * page after the id of the last board it holds: pages are disjoint, no board
 * is skipped, the feed the client accumulates stays id-descending, and the
 * paging stops.
 */
module FeedPaging {
  import opened Outcomes
  import opened BoardTable
  import opened BoardOrder
  import opened BoardController

  /** Every joined board, newest id first. */
  function FullFeed(t: Table): seq<Row>
  {
    SortDesc(Joined(t))
  }

  /** The joined boards below a cursor, newest id first: what the pages after that cursor hold together. */
  function Remaining(t: Table, cursor: int): seq<Row>
  {
    SortDesc(Below(Joined(t), cursor))
  }

  function Last(s: seq<Row>): Row
    requires s != []
  {
    s[|s| - 1]
  }

  /** The page taken off a strictly descending arrangement leaves exactly the rows below its last id. */
  lemma PageSplit(xs: seq<Row>)
    requires StrictlyDesc(SortDesc(xs))
    requires Page(SortDesc(xs)) != []
    ensures SortDesc(xs) == Page(SortDesc(xs)) + SortDesc(Below(xs, Last(Page(SortDesc(xs))).id))
  {
    var s := SortDesc(xs);
    var p := Page(s);
    var k := |p|;
    assert Last(p) == s[k - 1];
    SortBelow(xs, s[k - 1].id);
    BelowSuffix(s, k);
    assert s == s[..k] + s[k..];
  }

  /** The first page followed by everything below its last id is the whole feed. */
  lemma IndexThenRemaining(t: Table)
    requires Valid(t) && Index(t) != []
    ensures FullFeed(t) == Index(t) + Remaining(t, Last(Index(t)).id)
  {
    SortDescStrictlyDesc(Joined(t));
    PageSplit(Joined(t));
  }

  /** A later page followed by everything below its last id is everything below the cursor. */
  lemma MoreIndexThenRemaining(t: Table, cursor: int)
    requires Valid(t) && MoreIndex(t, cursor) != []
    ensures Remaining(t, cursor) == MoreIndex(t, cursor) + Remaining(t, Last(MoreIndex(t, cursor)).id)
  {
    var j := Joined(t);
    var below := Below(j, cursor);
    var p := MoreIndex(t, cursor);
    assert StrictlyDesc(SortDesc(below)) by {
      SortDescStrictlyDesc(j);
      SortBelow(j, cursor);
      BelowStrictlyDesc(SortDesc(j), cursor);
    }
    PageSplit(below);
    var v := Last(p).id;
    assert Last(p) in p;
    BelowBelow(j, v, cursor);
  }

  /** |Remaining| counts the joined boards below the cursor. */
  lemma RemainingEmptyIff(t: Table, cursor: int)
    ensures Remaining(t, cursor) == [] <==> MoreIndex(t, cursor) == []
  {
  }

  /**
   * Each page strictly shrinks what is left, and a page shorter than
   * PageSize is followed by an empty one: repeated "load more" requests end
   * with the empty page.
   */
  lemma PagingTerminates(t: Table, cursor: int)
    requires Valid(t) && MoreIndex(t, cursor) != []
    ensures var p := MoreIndex(t, cursor);
            && |Remaining(t, Last(p).id)| == |Remaining(t, cursor)| - |p| < |Remaining(t, cursor)|
            && (|p| < PageSize ==> MoreIndex(t, Last(p).id) == [])
  {
    MoreIndexThenRemaining(t, cursor);
  }

  /** A page asked for after a strictly descending feed continues it without repeating a board. */
  lemma NextPageContinuesFeed(t: Table, feed: seq<Row>)
    requires Valid(t) && StrictlyDesc(feed) && feed != []
    ensures var page := MoreIndex(t, Last(feed).id);
            && StrictlyDesc(feed + page)
            && forall x :: x in feed ==> x !in page
  {
    var page := MoreIndex(t, Last(feed).id);
    MoreIndexNewest(t, Last(feed).id);
    var r := feed + page;
    forall i, j | 0 <= i < j < |r| ensures r[i].id > r[j].id {
      if j < |feed| {
        assert r[i] == feed[i] && r[j] == feed[j];
      } else if i < |feed| {
        assert r[j] == page[j - |feed|];
        assert r[j] in page;
        assert i == |feed| - 1 || feed[i].id > Last(feed).id;
      } else {
        assert r[i] == page[i - |feed|] && r[j] == page[j - |feed|];
      }
    }
    forall x | x in feed ensures x !in page {
      var i :| 0 <= i < |feed| && feed[i] == x;
      assert i == |feed| - 1 || feed[i].id > Last(feed).id;
    }
  }

  // ---------------------------------------------------------------------------
  // The client's board list against the server's table
  // ---------------------------------------------------------------------------

  /**
   * The client's board list and cursor agree with the table: the cursor is
   * the id of the last board held, and the held boards followed by the
   * boards below the cursor are the whole feed.
   */
  predicate Mirrors(t: Table, list: seq<Row>, cursor: int)
  {
    list != [] && cursor == Last(list).id && list + Remaining(t, cursor) == FullFeed(t)
  }

  /** A mirrored list is a strictly descending prefix of the feed. */
  lemma MirroredListDescending(t: Table, list: seq<Row>, cursor: int)
    requires Valid(t) && Mirrors(t, list, cursor)
    ensures StrictlyDesc(list)
    ensures forall x :: x in list ==> x in Joined(t)
  {
    SortDescStrictlyDesc(Joined(t));
    var f := FullFeed(t);
    assert list == f[..|list|];
    forall x | x in list ensures x in Joined(t) {
      assert x in f;
      assert x in multiset(f);
    }
  }

  /** After a non-empty first page the client's list and cursor mirror the table. */
  lemma FirstPageMirrors(t: Table)
    requires Valid(t) && Index(t) != []
    ensures Mirrors(t, Index(t), Last(Index(t)).id)
  {
    IndexThenRemaining(t);
  }

  /**
   * "Load more" against an unchanged table: a non-empty page appended with
   * the cursor moved to its last id keeps the mirror; an empty page means the
   * client already holds the whole feed.
   */
  lemma LoadMoreMirrors(t: Table, list: seq<Row>, cursor: int)
    requires Valid(t) && Mirrors(t, list, cursor)
    ensures var page := MoreIndex(t, cursor);
            && (page != [] ==> Mirrors(t, list + page, Last(page).id))
            && (page == [] ==> list == FullFeed(t))
  {
    var page := MoreIndex(t, cursor);
    if page != [] {
      var v := Last(page).id;
      MoreIndexThenRemaining(t, cursor);
      var rest := Remaining(t, v);
      assert Remaining(t, cursor) == page + rest;
      assert list + Remaining(t, cursor) == FullFeed(t);
      assert (list + page) + rest == list + (page + rest);
      assert Last(list + page) == Last(page);
    } else {
      RemainingEmptyIff(t, cursor);
      assert list + Remaining(t, cursor) == list;
    }
  }

  /** Any board of a joined table has an id below a fresh auto-increment id. */
  lemma JoinedBelowNewId(t: Table, newId: int)
    requires forall b :: b in t.boards ==> b.id < newId
    ensures IdsBelow(Joined(t), newId)
  {
    forall i | 0 <= i < |Joined(t)| ensures Joined(t)[i].id < newId {
      assert Joined(t)[i] in Joined(t);
      assert Detach(Joined(t)[i]) in t.boards;
    }
  }

  /**
   * After the intended store, prepending the response row keeps the mirror
   * with the same cursor; leaving the list as it is (what the client does
   * when it holds a single board) misses exactly the new board.
   */
  lemma PostKeepsMirror(t: Table, list: seq<Row>, cursor: int,
                        content: Option<string>, img: Option<Upload>, path: string, authId: int, newId: int)
    requires Valid(t) && authId in t.users
    requires forall b :: b in t.boards ==> b.id < newId
    requires PassesValidation(content, img)
    requires Mirrors(t, list, cursor)
    ensures var s := StoreIntended(t, content, img, path, authId, newId).value;
            && Mirrors(s.table, [s.row] + list, cursor)
            && list + Remaining(s.table, cursor) == FullFeed(s.table)[1..]
  {
    var s := StoreIntended(t, content, img, path, authId, newId).value;
    StoreIntendedHeadsIndex(t, content, img, path, authId, newId);
    MirroredListDescending(t, list, cursor);
    JoinedBelowNewId(t, newId);
    assert Last(list) in list;
    RemainingAboveCursor(Joined(t), s.row, cursor);
    PrependMirror(FullFeed(t), list, Remaining(t, cursor), s.row);
  }

  /** A row added at or above the cursor does not change what lies below it. */
  lemma RemainingAboveCursor(j: seq<Row>, x: Row, cursor: int)
    requires cursor <= x.id
    ensures SortDesc(Below(j + [x], cursor)) == SortDesc(Below(j, cursor))
  {
    BelowAppend(j, [x], cursor);
    assert Below([x], cursor) == [];
    assert Below(j, cursor) + [] == Below(j, cursor);
  }

  lemma PrependMirror(feed: seq<Row>, list: seq<Row>, rest: seq<Row>, x: Row)
    requires list + rest == feed && list != []
    ensures ([x] + list) + rest == [x] + feed
    ensures Last([x] + list) == Last(list)
    ensures ([x] + feed)[1..] == feed
  {
  }

  /**
   * With the store as written, the response row is an old board re-written,
   * and a client holding the first page prepends a board it already has: the
   * list repeats id 1 and stops descending.
   */
  lemma AsWrittenPostBreaksFeedOrder()
    ensures var t := Table([Board(1, 2, "first post", "img/a.png"), Board(2, 1, "second post", "img/b.png")],
                           map[1 := "kim", 2 := "lee"]);
            var list := Index(t);
            var r := StoreAsWritten(t, Some("new post"), Some(Upload(true)), "img/c.png", 1);
            && |list| == 2
            && r.Ok?
            && [r.value.row] + list == [Row(1, 1, "new post", "img/c.png", "kim"),
                                        Row(2, 1, "second post", "img/b.png", "kim"),
                                        Row(1, 2, "first post", "img/a.png", "lee")]
            && !StrictlyDesc([r.value.row] + list)
  {
    var b0, b1 := Board(1, 2, "first post", "img/a.png"), Board(2, 1, "second post", "img/b.png");
    var users := map[1 := "kim", 2 := "lee"];
    var t := Table([b0, b1], users);
    var r0, r1 := Row(1, 2, "first post", "img/a.png", "lee"), Row(2, 1, "second post", "img/b.png", "kim");
    assert [b0, b1][1..] == [b1];
    assert [b1][1..] == [];
    assert Join([b1], users) == [r1];
    assert Joined(t) == [r0, r1];
    assert [r0, r1][1..] == [r1];
    assert [r1][1..] == [];
    assert SortDesc([r1]) == [r1];
    assert Insert(r0, [r1]) == [r1, r0] by {
      assert [r1][1..] == [];
      assert Insert(r0, []) == [r0];
    }
    assert SortDesc([r0, r1]) == [r1, r0];
    assert Index(t) == [r1, r0];
    var r := StoreAsWritten(t, Some("new post"), Some(Upload(true)), "img/c.png", 1);
    assert PassesValidation(Some("new post"), Some(Upload(true)));
    assert SelectForStore(t, 1) == Some(0);
    assert r.Ok?;
    var row := r.value.row;
    assert row == Row(1, 1, "new post", "img/c.png", "kim");
    assert ([row] + [r1, r0])[0].id == 1 && ([row] + [r1, r0])[1].id == 2;
  }
}

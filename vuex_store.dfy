/**
 * The Vuex store of the vuestagram client: the state, its mutations, and
 * what each action does to the state once the server has answered. The
 * answers are inputs; the HTTP calls, alerts and page navigation are not
 * part of this model. localStorage is a map from keys to the values written.
 */
module VuexStore {
  import opened Outcomes
  import opened BoardTable
  import opened BoardController
  import opened FeedPaging

  /**
   * A `boards_count` value: a number, NaN (what `undefined++` gives), or
   * `null` (what JSON.stringify writes for NaN, read back by JSON.parse).
   */
  datatype Count = Num(n: int) | NaN | Null

  /** state.userInfo: the user object of the login response; `{}` has every field absent. */
  datatype UserInfo = UserInfo(id: Option<int>, name: Option<string>, boardsCount: Option<Count>)

  const EmptyUserInfo: UserInfo := UserInfo(None, None, None)

  /**
   * A localStorage value, named after the JavaScript value that was stored
   * (localStorage keeps String(value)): plain text, JSON.stringify of a user
   * object (held as the object JSON.parse gives back), a number, or an array of n board objects, whose String is
   * "[object Object]" repeated n times with commas.
   */
  datatype Item = Text(s: string) | UserJson(u: UserInfo) | Number(n: int) | ObjectArray(length: nat)

  /** Whether the string getItem returns is truthy, i.e. non-empty. */
  predicate Truthy(item: Item)
  {
    match item
    case Text(s) => s != ""
    case UserJson(_) => true
    case Number(_) => true
    case ObjectArray(n) => n > 0
  }

  /** `localStorage.getItem(key) ? ... : ...`: the key is present and its string is non-empty. */
  predicate Holds(storage: map<string, Item>, key: string)
  {
    key in storage && Truthy(storage[key])
  }

  /**
   * The items state() parses are the kinds the store itself writes there:
   * JSON of a user under 'userInfo', a number under 'lastID'.
   */
  predicate Readable(storage: map<string, Item>)
  {
    && (Holds(storage, "userInfo") ==> storage["userInfo"].UserJson?)
    && (Holds(storage, "lastID") ==> storage["lastID"].Number?)
  }

  /**
   * `JSON.parse(JSON.stringify(u))`: a user object as it comes back from
   * localStorage. A NaN count is written as `null`; everything else survives.
   */
  function JsonRoundTrip(u: UserInfo): (r: UserInfo)
    ensures r.id == u.id && r.name == u.name
    ensures u.boardsCount == Some(NaN) ==> r.boardsCount == Some(Null)
    ensures u.boardsCount != Some(NaN) ==> r.boardsCount == u.boardsCount
  {
    if u.boardsCount == Some(NaN) then u.(boardsCount := Some(Null)) else u
  }

  /** Writing a user back a second time changes nothing more. */
  lemma JsonRoundTripIdempotent(u: UserInfo)
    ensures JsonRoundTrip(JsonRoundTrip(u)) == JsonRoundTrip(u)
    ensures JsonRoundTrip(u) == u <==> u.boardsCount != Some(NaN)
  {
  }

  /** authFlg of state(): an access token is stored. */
  function InitialAuthFlg(storage: map<string, Item>): (r: bool)
    ensures r <==> Holds(storage, "accessToken")
  {
    Holds(storage, "accessToken")
  }

  /** userInfo of state(): the stored user object, or `{}`. */
  function InitialUserInfo(storage: map<string, Item>): (r: UserInfo)
    requires Readable(storage)
    ensures Holds(storage, "userInfo") ==> r == storage["userInfo"].u
    ensures !Holds(storage, "userInfo") ==> r == EmptyUserInfo
  {
    if Holds(storage, "userInfo") then storage["userInfo"].u else EmptyUserInfo
  }

  /** lastID of state(): the stored 'lastID', or 0. */
  function InitialLastID(storage: map<string, Item>): (r: int)
    requires Readable(storage)
    ensures Holds(storage, "lastID") ==> r == storage["lastID"].n
    ensures !Holds(storage, "lastID") ==> r == 0
  {
    if Holds(storage, "lastID") then storage["lastID"].n else 0
  }

  /** `boards_count++`: `null` counts as 0, `undefined` and NaN give NaN. */
  function Increment(c: Option<Count>): (r: Count)
    ensures (c.Some? && c.value.Num?) ==> r == Num(c.value.n + 1)
    ensures c == Some(Null) ==> r == Num(1)
    ensures (c.None? || c == Some(NaN)) ==> r == NaN
  {
    match c
    case Some(Num(n)) => Num(n + 1)
    case Some(Null) => Num(1)
    case _ => NaN
  }

  /** The code a failed login reports: the server's `code` when it is truthy, otherwise 'FE99'. */
  function LoginErrorCode(code: Option<string>): (r: string)
    ensures r != ""
    ensures code.Some? && code.value != "" ==> r == code.value
    ensures code.None? || code.value == "" ==> r == "FE99"
  {
    if code.Some? && code.value != "" then code.value else "FE99"
  }

  /** The cursor a reload starts from is the one "load more" stored last. */
  lemma ReloadResumesLoadMoreCursor(storage: map<string, Item>, id: int)
    requires Readable(storage)
    ensures Readable(storage["lastID" := Number(id)])
    ensures InitialLastID(storage["lastID" := Number(id)]) == id
  {
  }

  /**
   * The first page is stored under 'lastId', a key state() never reads, and
   * as the String of the board array: a reload does not resume from it.
   */
  lemma FirstPageCursorIsNotRestored(storage: map<string, Item>, n: nat)
    requires Readable(storage)
    ensures Readable(storage["lastId" := ObjectArray(n)])
    ensures InitialLastID(storage["lastId" := ObjectArray(n)]) == InitialLastID(storage)
  {
    assert "lastId" != "lastID";
  }

  /**
   * After a login, a reload starts logged in exactly when the access token is
   * non-empty, with the user as JSON gave it back.
   */
  lemma LoginThenReload(storage: map<string, Item>, accessToken: string, refreshToken: string, data: UserInfo)
    requires Readable(storage)
    ensures var s := storage["accessToken" := Text(accessToken)]["refreshToken" := Text(refreshToken)]["userInfo" := UserJson(JsonRoundTrip(data))];
            && Readable(s)
            && (InitialAuthFlg(s) <==> accessToken != "")
            && InitialUserInfo(s) == JsonRoundTrip(data)
            && InitialLastID(s) == InitialLastID(storage)
  {
    var s := storage["accessToken" := Text(accessToken)]["refreshToken" := Text(refreshToken)]["userInfo" := UserJson(JsonRoundTrip(data))];
    assert s["accessToken"] == Text(accessToken);
    assert s["userInfo"] == UserJson(JsonRoundTrip(data));
  }

  /**
   * A user without `boards_count` posts: the count becomes NaN, is written
   * as `null`, and after a reload the next post makes it 1.
   */
  lemma NaNCountRestartsAfterReload(storage: map<string, Item>, u: UserInfo)
    requires Readable(storage) && u.boardsCount.None?
    ensures var posted := u.(boardsCount := Some(Increment(u.boardsCount)));
            var s := storage["userInfo" := UserJson(JsonRoundTrip(posted))];
            && posted.boardsCount == Some(NaN)
            && Readable(s)
            && InitialUserInfo(s).boardsCount == Some(Null)
            && Increment(InitialUserInfo(s).boardsCount) == Num(1)
  {
    var posted := u.(boardsCount := Some(Increment(u.boardsCount)));
    var s := storage["userInfo" := UserJson(JsonRoundTrip(posted))];
    assert s["userInfo"] == UserJson(JsonRoundTrip(posted));
  }

  /** After logout has cleared localStorage, a reload starts logged out with `{}` and cursor 0. */
  lemma ReloadAfterLogout()
    ensures Readable(map[])
    ensures !InitialAuthFlg(map[]) && InitialUserInfo(map[]) == EmptyUserInfo && InitialLastID(map[]) == 0
  {
  }

  /** The store: its state and localStorage. */
  class Store {
    var authFlg: bool
    var userInfo: UserInfo
    var boardList: seq<Row>
    var lastID: int
    var noMoreBoardListFlg: bool
    var storage: map<string, Item>

    /** state(), read from what localStorage holds. */
    constructor (stored: map<string, Item>)
      requires Readable(stored)
      ensures authFlg == InitialAuthFlg(stored)
      ensures userInfo == InitialUserInfo(stored)
      ensures boardList == []
      ensures lastID == InitialLastID(stored)
      ensures !noMoreBoardListFlg
      ensures storage == stored
    {
      authFlg := InitialAuthFlg(stored);
      userInfo := InitialUserInfo(stored);
      boardList := [];
      lastID := InitialLastID(stored);
      noMoreBoardListFlg := false;
      storage := stored;
    }

    // -------------------------------------------------------------------------
    // Mutations
    // -------------------------------------------------------------------------

    method SetAuthFlg(boo: bool)
      modifies this`authFlg
      ensures authFlg == boo
    {
      authFlg := boo;
    }

    method SetUserInfo(info: UserInfo)
      modifies this`userInfo
      ensures userInfo == info
    {
      userInfo := info;
    }

    /** `state.userInfo.boards_count++`: one more when it is a number, NaN otherwise. */
    method SetUserBoardsCount()
      modifies this`userInfo
      ensures userInfo == old(userInfo).(boardsCount := Some(Increment(old(userInfo).boardsCount)))
    {
      userInfo := userInfo.(boardsCount := Some(Increment(userInfo.boardsCount)));
    }

    method SetNoMoreBoardListFlg(flg: bool)
      modifies this`noMoreBoardListFlg
      ensures noMoreBoardListFlg == flg
    {
      noMoreBoardListFlg := flg;
    }

    method SetBoardList(data: seq<Row>)
      modifies this`boardList
      ensures boardList == data
    {
      boardList := data;
    }

    method SetLastID(id: int)
      modifies this`lastID
      ensures lastID == id
    {
      lastID := id;
    }

    /** `boardList.concat(data)`: the old boards keep their positions, data follows. */
    method SetConcatBoardList(data: seq<Row>)
      modifies this`boardList
      ensures boardList == old(boardList) + data
      ensures |boardList| == |old(boardList)| + |data|
      ensures forall i :: 0 <= i < |old(boardList)| ==> boardList[i] == old(boardList)[i]
      ensures forall i :: 0 <= i < |data| ==> boardList[|old(boardList)| + i] == data[i]
    {
      boardList := boardList + data;
    }

    /** `boardList.unshift(data)`: the new board is element 0 and every old one moves up by one. */
    method SetUnshiftBoardList(board: Row)
      modifies this`boardList
      ensures boardList == [board] + old(boardList)
      ensures |boardList| == |old(boardList)| + 1 && boardList[0] == board
      ensures forall i :: 0 <= i < |old(boardList)| ==> boardList[i + 1] == old(boardList)[i]
    {
      boardList := [board] + boardList;
    }

    // -------------------------------------------------------------------------
    // Actions, from the server's answer on
    // -------------------------------------------------------------------------

    /** login, success: store both tokens and the user, then authFlg true and userInfo the user. */
    method LoginSucceeded(accessToken: string, refreshToken: string, data: UserInfo)
      modifies this`storage, this`authFlg, this`userInfo
      ensures storage == old(storage)["accessToken" := Text(accessToken)]["refreshToken" := Text(refreshToken)]["userInfo" := UserJson(JsonRoundTrip(data))]
      ensures authFlg && userInfo == data
      ensures Readable(old(storage)) ==> Readable(storage)
    {
      storage := storage["accessToken" := Text(accessToken)];
      storage := storage["refreshToken" := Text(refreshToken)];
      storage := storage["userInfo" := UserJson(JsonRoundTrip(data))];
      SetAuthFlg(true);
      SetUserInfo(data);
    }

    /**
     * logout: whether the request succeeded or failed (only the alert text
     * differs), localStorage is cleared, authFlg is false and userInfo `{}`.
     */
    method Logout(requestSucceeded: bool) returns (message: string)
      modifies this`storage, this`authFlg, this`userInfo
      ensures storage == map[] && !authFlg && userInfo == EmptyUserInfo
      ensures Readable(old(storage)) ==> Readable(storage)
      ensures message == if requestSucceeded then "로그아웃 완료" else "문제가 생겨 로그아웃 처리"
    {
      if requestSucceeded {
        message := "로그아웃 완료";
      } else {
        message := "문제가 생겨 로그아웃 처리";
      }
      storage := map[];
      SetAuthFlg(false);
      SetUserInfo(EmptyUserInfo);
    }

    /**
     * getBoardList, success: the list is replaced by the page. Reading the id
     * of the last board of an empty page throws, so then only the list
     * changes (ok is false: the catch branch alerts). Otherwise the page is
     * written under 'lastId' and lastID becomes its last id.
     */
    method FirstPageReceived(data: seq<Row>) returns (ok: bool)
      modifies this`boardList, this`lastID, this`storage
      ensures boardList == data
      ensures ok <==> data != []
      ensures !ok ==> lastID == old(lastID) && storage == old(storage)
      ensures ok ==> lastID == data[|data| - 1].id && storage == old(storage)["lastId" := ObjectArray(|data|)]
      ensures Readable(old(storage)) ==> Readable(storage)
      ensures forall t :: Valid(t) && data == Index(t) && data != [] ==> Mirrors(t, boardList, lastID)
    {
      SetBoardList(data);
      if |data| == 0 {
        ok := false;
        return;
      }
      var id := data[|data| - 1].id;
      storage := storage["lastId" := ObjectArray(|data|)];
      SetLastID(id);
      ok := true;
      forall t | Valid(t) && data == Index(t) && data != [] ensures Mirrors(t, boardList, lastID) {
        FirstPageMirrors(t);
      }
    }

    /**
     * getAddBoardList, success: a non-empty page is appended and its last id
     * becomes lastID (also under 'lastID'); an empty page sets the "no more"
     * flag, resets lastID to 0 and removes 'lastID'.
     */
    method MoreReceived(data: seq<Row>)
      modifies this`boardList, this`lastID, this`noMoreBoardListFlg, this`storage
      ensures data != [] ==>
                && boardList == old(boardList) + data
                && lastID == data[|data| - 1].id
                && noMoreBoardListFlg == old(noMoreBoardListFlg)
                && storage == old(storage)["lastID" := Number(data[|data| - 1].id)]
      ensures data == [] ==>
                && boardList == old(boardList)
                && lastID == 0
                && noMoreBoardListFlg
                && storage == old(storage) - {"lastID"}
      ensures Readable(old(storage)) ==> Readable(storage)
      ensures forall t :: Valid(t) && old(Mirrors(t, boardList, lastID)) && data == MoreIndex(t, old(lastID)) ==>
                (data != [] ==> Mirrors(t, boardList, lastID)) && (data == [] ==> boardList == FullFeed(t))
    {
      if |data| > 0 {
        SetConcatBoardList(data);
        SetLastID(data[|data| - 1].id);
        storage := storage["lastID" := Number(data[|data| - 1].id)];
      } else {
        SetNoMoreBoardListFlg(true);
        SetLastID(0);
        storage := storage - {"lastID"};
      }
      forall t | Valid(t) && old(Mirrors(t, boardList, lastID)) && data == MoreIndex(t, old(lastID))
        ensures (data != [] ==> Mirrors(t, boardList, lastID)) && (data == [] ==> boardList == FullFeed(t))
      {
        LoadMoreMirrors(t, old(boardList), old(lastID));
      }
    }

    /**
     * storeBoard, success: the new board is put in front only when the list
     * holds more than one board; boards_count goes up by one either way and
     * userInfo is written back to localStorage.
     */
    method PostSucceeded(board: Row)
      modifies this`boardList, this`userInfo, this`storage
      ensures boardList == if |old(boardList)| > 1 then [board] + old(boardList) else old(boardList)
      ensures userInfo == old(userInfo).(boardsCount := Some(Increment(old(userInfo).boardsCount)))
      ensures old(userInfo).boardsCount.Some? && old(userInfo).boardsCount.value.Num? ==>
                userInfo.boardsCount == Some(Num(old(userInfo).boardsCount.value.n + 1))
      ensures storage == old(storage)["userInfo" := UserJson(JsonRoundTrip(userInfo))]
      ensures Readable(old(storage)) ==> Readable(storage)
    {
      if |boardList| > 1 {
        SetUnshiftBoardList(board);
      }
      SetUserBoardsCount();
      storage := storage["userInfo" := UserJson(JsonRoundTrip(userInfo))];
    }
  }
}

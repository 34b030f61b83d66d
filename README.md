# vuestagram board feed, modelled in Dafny

This project models the cursor-paged board feed of the vuestagram side project
and the small date helpers of the JavaScript Date exercise.

- **Server** (`BoardController`): `index` returns the newest 20 boards joined
  with their owners' names. `moreIndex($id)` returns the newest 20 boards whose
  id is below the cursor `$id`. `store` validates a post and writes it to a row
  of `boards`.
- **Client** (the Vuex store): a state of `authFlg`, `userInfo`, `boardList`,
  `lastID` and `noMoreBoardListFlg`, plus `localStorage`. Its mutations are
  methods of a class. Each action is modelled from the point where the server
  has answered, so the answer is an input.
- **Helpers** (`30.js`): the Korean weekday name, `lpadZero`, and the
  whole-day difference of two timestamps.

Modules, one concern each:

| file | module | what |
|---|---|---|
| `outcomes.dfy` | `Outcomes` | `Option`, `Result` |
| `day_utils.dfy` | `DayUtils` | `changeDayToKoreanDay`, `String(v)`, `padStart`, `lpadZero`, day difference |
| `board_table.dfy` | `BoardTable` | board and user rows, the inner join |
| `board_order.dfy` | `BoardOrder` | `orderBy('id', 'DESC')` as an insertion sort, `where('boards.id', '<', $id)` as a filter |
| `board_controller.dfy` | `BoardController` | `index`, `moreIndex`, `store` (a function and a `Database` class method) |
| `feed_paging.dfy` | `FeedPaging` | how consecutive pages fit together, and how the client's list tracks the table |
| `vuex_store.dfy` | `VuexStore` | the client store as a class |

The table is a sequence of `boards` rows in storage order plus a map from
`users.id` to `users.name`. `boards.id` is the primary key; the predicate
`BoardTable.Valid` states this, and the lemmas that need unique ids require it.
The queries are written as `ORDER BY id`. With `boards.*` and `users.name` in
the select list, `id` is `boards.id`.

What the proofs establish about the feed:

- Each page has at most 20 boards, in strictly descending id order. Each board
  on a page has an owner in `users` and carries that owner's name.
- A page holds the largest ids available to it.
- When the client asks for the page after the last id it holds, the pages are
  disjoint, and no board is skipped:
  `Remaining(t, c) == MoreIndex(t, c) + Remaining(t, last id)`.
- Each page shrinks what is left, and a short page is followed by an empty one.
- On a table that does not change, the client's `boardList` followed by the
  boards below `lastID` is the whole feed (`FeedPaging.Mirrors`). This holds
  after a non-empty first page and after each non-empty "load more" page.
  When the empty page arrives, `boardList` is the whole feed; `lastID` is then
  reset to 0, so the mirror itself no longer holds.

Behaviour of the code that the model keeps as written:

- **`store` overwrites instead of inserting.** It selects with
  `join('users', 'users.id', '=', 'boards.id')`, so it overwrites the board
  whose own id equals the user's id. If no such board exists, assigning to the
  `null` result fails, and the model returns `NoRowSelected` for this case.
  This is listed under Findings below. The comment at line 66 calls this
  step an insert; the model follows the code.
- **An empty first page still clears the list.** `getBoardList` commits
  `setBoardList(data)` before it reads `data[data.length - 1].id`. On an empty
  page that read throws. So the list changes to `[]`, while `lastID` and
  `localStorage` stay as they were.
- **The first page stores its cursor under the wrong key.** `getBoardList`
  writes `localStorage.setItem('lastId', data)`: the key is `lastId`, and the
  value is the String of the board array. `state()` reads only `lastID`, so a
  reload does not resume from the first page's cursor
  (`VuexStore.FirstPageCursorIsNotRestored`). `getAddBoardList` writes
  `lastID` with the number (`VuexStore.ReloadResumesLoadMoreCursor`).
- **A post is shown only when the list has more than one board.**
  `storeBoard` prepends the new board only when `boardList.length > 1`. With
  the intended insert, prepending keeps the mirror. When the list holds one
  board, the client's view misses exactly the new board
  (`FeedPaging.PostKeepsMirror`).
- **`boards_count++` on `{}` gives NaN.** On a user object without
  `boards_count`, the increment stores NaN (`VuexStore.Increment`).
  `JSON.stringify` writes that NaN to localStorage as `null`. After a reload
  the count is `null`, and the next post makes it 1
  (`VuexStore.NaNCountRestartsAfterReload`).

## Model

| member | source | states |
|---|---|---|
| `DayUtils.ChangeDayToKoreanDay` | JavaScript/ex/30.js:4-24 | a name exactly for 0..6, the day name table entry for that number (0 Sunday ... 6 Saturday); `None` (undefined) for every other number |
| `DayUtils.KoreanDayNamesDistinct` | JavaScript/ex/30.js:4-19 | two different day numbers get different names |
| `DayUtils.NatToDigits` | JavaScript/ex/30.js:28 | the decimal digits of a natural number: non-empty, all digits, no leading zero |
| `DayUtils.NumberToString` | JavaScript/ex/30.js:28 | `String(n)` for an integral number: non-empty, digits, with a leading `-` exactly when negative |
| `DayUtils.NumberToStringRoundTrip` | JavaScript/ex/30.js:28 | reading back the printed digits gives the number (and its negation after the sign) |
| `DayUtils.ParseNatToDigits` | JavaScript/ex/30.js:28 | parsing the digits of n gives n |
| `DayUtils.ToJsString` | JavaScript/ex/30.js:28 | `String(val)`: a string is returned as it is; a number gives a non-empty text that is all digits exactly when the number is non-negative |
| `DayUtils.LpadZero` | JavaScript/ex/30.js:27-29 | `lpadZero` returns `String(val)` unchanged exactly when `length` is at most its length; its full shape is proved by `LpadZeroShape` |
| `DayUtils.PadStart` | JavaScript/ex/30.js:28 | `padStart(n, '0')`: length max(n, \|s\|), ends with s, zeros before it |
| `DayUtils.LpadZeroShape` | JavaScript/ex/30.js:27-29 | lpadZero(v, n) has length max(n, \|String(v)\|), ends with String(v), every earlier character is `'0'` |
| `DayUtils.LpadZeroIdentity` | JavaScript/ex/30.js:28 | lpadZero returns String(v) unchanged when it is at least n long |
| `DayUtils.LpadZeroIdempotent` | JavaScript/ex/30.js:28 | padding the padded string again gives the same string |
| `DayUtils.Zeros` | JavaScript/ex/30.js:28 | the filler: k characters, each `'0'` |
| `DayUtils.ParseZeros` | JavaScript/ex/30.js:28 | a string of zeros reads as 0 |
| `DayUtils.ParseLeadingZeros` | JavaScript/ex/30.js:28 | leading zeros do not change the value read |
| `DayUtils.LpadZeroFixedWidth` | JavaScript/ex/30.js:38-53 | a natural number padded to at least its width is exactly that wide and reads back as the same number |
| `DayUtils.TwoDigitField` | JavaScript/ex/30.js:38-47 | month, date, hour and minute values below 100 fill the two-digit field and read back unchanged |
| `DayUtils.DayDifference` | JavaScript/ex/30.js:67 | a non-negative r with r days <= \|a - b\| ms < r + 1 days, i.e. the floor of the quotient |
| `DayUtils.DayDifferenceSymmetric` | JavaScript/ex/30.js:67 | the difference does not depend on the order of the two dates |
| `DayUtils.DayDifferenceWithinADay` | JavaScript/ex/30.js:67 | less than 86400000 ms apart gives 0 days |
| `BoardTable.Join` | side_project/vuestagram_session/app/Http/Controllers/BoardController.php:16-17 | inner join: every row comes from a board whose owner is in `users` and carries that owner's name; every such board appears; unique board ids give unique row ids |
| `BoardTable.JoinAppend` | side_project/vuestagram_session/app/Http/Controllers/BoardController.php:16-17 | a board added at the end of the table adds its joined row at the end of the join |
| `BoardOrder.Insert` | side_project/vuestagram_session/app/Http/Controllers/BoardController.php:18 | the insertion step of the sort: the same rows plus x |
| `BoardOrder.SortDesc` | side_project/vuestagram_session/app/Http/Controllers/BoardController.php:18 | `orderBy('id', 'DESC')`: a permutation of its input (same multiset, same length) |
| `BoardOrder.InsertNonIncreasing` | side_project/vuestagram_session/app/Http/Controllers/BoardController.php:18 | inserting into a non-increasing sequence keeps it non-increasing |
| `BoardOrder.InsertStrictlyDesc` | side_project/vuestagram_session/app/Http/Controllers/BoardController.php:18 | inserting a new id into a strictly descending sequence keeps it strictly descending |
| `BoardOrder.SortDescNonIncreasing` | side_project/vuestagram_session/app/Http/Controllers/BoardController.php:18 | the sorted rows never increase in id |
| `BoardOrder.SortDescStrictlyDesc` | side_project/vuestagram_session/app/Http/Controllers/BoardController.php:18 | with unique ids the sorted rows strictly decrease in id |
| `BoardOrder.Below` | side_project/vuestagram_session/app/Http/Controllers/BoardController.php:36 | `where('boards.id', '<', $id)`: no longer than its input, and every row kept has an id below the cursor |
| `BoardOrder.BelowMembers` | side_project/vuestagram_session/app/Http/Controllers/BoardController.php:36 | a row is kept exactly when it is a row of the input and its id is below the cursor |
| `BoardOrder.BelowStrictlyDesc` | side_project/vuestagram_session/app/Http/Controllers/BoardController.php:36 | filtering keeps a strictly descending sequence strictly descending |
| `BoardOrder.BelowNonIncreasing` | side_project/vuestagram_session/app/Http/Controllers/BoardController.php:36 | filtering keeps a non-increasing sequence non-increasing |
| `BoardOrder.BelowInsert` | side_project/vuestagram_session/app/Http/Controllers/BoardController.php:36-37 | the filter commutes with the insertion step on sorted input |
| `BoardOrder.SortBelow` | side_project/vuestagram_session/app/Http/Controllers/BoardController.php:36-37 | filtering then sorting equals sorting then filtering |
| `BoardOrder.BelowAll` | side_project/vuestagram_session/app/Http/Controllers/BoardController.php:36 | the filter keeps everything when every id is below the cursor |
| `BoardOrder.BelowBelow` | side_project/vuestagram_session/app/Http/Controllers/BoardController.php:36 | a stricter cursor after a looser one is the stricter cursor alone |
| `BoardOrder.BelowAppend` | side_project/vuestagram_session/app/Http/Controllers/BoardController.php:36 | the filter distributes over concatenation |
| `BoardOrder.BelowSuffix` | side_project/vuestagram_session/app/Http/Controllers/BoardController.php:36 | in a strictly descending sequence the rows below the k-th id are exactly the rows after position k |
| `BoardOrder.SortAppendLargest` | side_project/vuestagram_session/app/Http/Controllers/BoardController.php:18 | a row with an id above all others, added last, sorts first |
| `BoardController.Page` | side_project/vuestagram_session/app/Http/Controllers/BoardController.php:19 | `limit(20)`: the first min(\|s\|, 20) rows |
| `BoardController.SortedPage` | side_project/vuestagram_session/app/Http/Controllers/BoardController.php:18-19 | the first page of the sorted rows holds only input rows, never increases in id, and every input row left out has an id no larger than any row kept |
| `BoardController.PageRows` | side_project/vuestagram_session/app/Http/Controllers/BoardController.php:19 | a page of a re-ordering of the rows holds only those rows |
| `BoardController.PageKeepsLargest` | side_project/vuestagram_session/app/Http/Controllers/BoardController.php:18-19 | a page of the rows in non-increasing order keeps ids at least as large as every row it leaves out |
| `BoardController.Index` | side_project/vuestagram_session/app/Http/Controllers/BoardController.php:16-20 | min(joined, 20) rows, all joined boards (so with an existing owner and that owner's name), ids never increasing, and any joined board left out has an id no larger than every returned id |
| `BoardController.IndexNewest` | side_project/vuestagram_session/app/Http/Controllers/BoardController.php:16-20 | with `boards.id` the primary key: strictly descending ids, and every joined board left out is older than every returned one |
| `BoardController.MoreIndex` | side_project/vuestagram_session/app/Http/Controllers/BoardController.php:34-39 | min(joined boards below the cursor, 20) rows, each a joined board with id below the cursor, ids never increasing, and any joined board below the cursor left out has an id no larger than every returned id |
| `BoardController.MoreIndexNewest` | side_project/vuestagram_session/app/Http/Controllers/BoardController.php:34-39 | with unique ids: strictly descending, and they are the largest ids below the cursor |
| `BoardController.MoreIndexEmptyIff` | side_project/vuestagram_session/app/Http/Controllers/BoardController.php:34-39 | the page is empty exactly when no joined board lies below the cursor |
| `BoardController.PassesValidation` | side_project/vuestagram_session/app/Http/Controllers/BoardController.php:52-58 | the Validator rule: content present with 1 to 200 characters, img present and an image; the first two ensures of `StoreAsWritten` and `StoreIntended` state that failing it is exactly the `E01` case |
| `BoardController.FirstWithId` | side_project/vuestagram_session/app/Http/Controllers/BoardController.php:69-70 | `first()`: the first board with that id in storage order, or none exactly when no board has it |
| `BoardController.SelectForStore` | side_project/vuestagram_session/app/Http/Controllers/BoardController.php:67-70 | the row store writes: a board whose `boards.id` equals `Auth::id()`, only if that user exists; none exactly when the user is missing or no board has that id |
| `BoardController.StoreAsWritten` | side_project/vuestagram_session/app/Http/Controllers/BoardController.php:52-74 | `E01` exactly when content is missing or outside 1..200 characters, or the image is missing or not an image; `NoRowSelected` exactly when validation passes but no row is selected; `Ok` exactly when validation passes and a row is selected; on success only the selected row changes, to (user id, user id, content, path), users unchanged, and the response is that row with the user's name |
| `BoardController.StoreAsWrittenKeepsValid` | side_project/vuestagram_session/app/Http/Controllers/BoardController.php:71-74 | store neither adds rows nor breaks the primary key |
| `BoardController.StoreOverwritesAnotherUsersBoard` | side_project/vuestagram_session/app/Http/Controllers/BoardController.php:67-74 | user 1 posting overwrites board 1 of user 2 and adds no board |
| `BoardController.StoreFailsWithoutBoardOfSameId` | side_project/vuestagram_session/app/Http/Controllers/BoardController.php:67-71 | a valid post by user 3 fails when no board has id 3 |
| `BoardController.StoreIntended` | side_project/vuestagram_session/app/Http/Controllers/BoardController.php:66-74 | the evidently intended insert: `E01` under the same rule, `Ok` exactly when validation passes, and then the table gains exactly one board (new id, user, content, path) at the end |
| `BoardController.StoreIntendedHeadsIndex` | side_project/vuestagram_session/app/Http/Controllers/BoardController.php:66-74 | a valid post succeeds, keeps ids unique, appends its row to the join, and its board becomes the first row of the sorted feed and of `index` |
| `BoardController.Database.constructor` | side_project/vuestagram_session/app/Http/Controllers/BoardController.php:67 | a database holding the given tables |
| `BoardController.Database.Store` | side_project/vuestagram_session/app/Http/Controllers/BoardController.php:51-81 | the in-place store: on `E01` or a missing row nothing changes; on success the tables become those of `StoreAsWritten` and the response is its row; users never change |
| `FeedPaging.PageSplit` | side_project/vuestagram_session/app/Http/Controllers/BoardController.php:18-19 | a page taken off a strictly descending arrangement is followed by exactly the rows below its last id |
| `FeedPaging.IndexThenRemaining` | side_project/vuestagram_session/app/Http/Controllers/BoardController.php:16-20 | the first page followed by every board below its last id is the whole feed |
| `FeedPaging.MoreIndexThenRemaining` | side_project/vuestagram_session/app/Http/Controllers/BoardController.php:34-39 | a page followed by every board below its last id is every board below the cursor: no board is skipped |
| `FeedPaging.RemainingEmptyIff` | side_project/vuestagram_session/app/Http/Controllers/BoardController.php:34-39 | a page is empty exactly when nothing is left below the cursor |
| `FeedPaging.PagingTerminates` | side_project/vuestagram_session/app/Http/Controllers/BoardController.php:36-38 | each page shrinks what is left by its length; a page shorter than 20 is followed by the empty page |
| `FeedPaging.NextPageContinuesFeed` | side_project/vuestagram_session/app/Http/Controllers/BoardController.php:36 | the page after the last id of a strictly descending feed is disjoint from it and the concatenation stays strictly descending |
| `FeedPaging.MirroredListDescending` | side_project/vuestagram/resources/js/store.js:45-47 | a list that mirrors the table is strictly descending and holds only joined boards |
| `FeedPaging.FirstPageMirrors` | side_project/vuestagram/resources/js/store.js:134-139 | after a non-empty first page, list and cursor mirror the table |
| `FeedPaging.LoadMoreMirrors` | side_project/vuestagram/resources/js/store.js:164-181 | "load more": a non-empty page appended with the cursor moved keeps the mirror; an empty page means the list is the whole feed |
| `FeedPaging.JoinedBelowNewId` | side_project/vuestagram_session/app/Http/Controllers/BoardController.php:16-17 | every joined board is below a fresh auto-increment id |
| `FeedPaging.PostKeepsMirror` | side_project/vuestagram/resources/js/store.js:212-216 | after the intended insert, prepending the response keeps the mirror with the same cursor; not prepending misses exactly the new board |
| `FeedPaging.RemainingAboveCursor` | side_project/vuestagram_session/app/Http/Controllers/BoardController.php:36 | a board added at or above the cursor changes nothing below it |
| `FeedPaging.PrependMirror` | side_project/vuestagram/resources/js/store.js:49 | prepending keeps the last element and puts the new row before the feed |
| `FeedPaging.AsWrittenPostBreaksFeedOrder` | side_project/vuestagram_session/app/Http/Controllers/BoardController.php:67-79 | with store as written, a client holding the two-board first page prepends board 1 again: ids 1, 2, 1, not descending |
| `VuexStore.InitialAuthFlg` | side_project/vuestagram/resources/js/store.js:8 | logged in exactly when a non-empty access token is stored |
| `VuexStore.InitialUserInfo` | side_project/vuestagram/resources/js/store.js:9 | the stored user object, or `{}` |
| `VuexStore.InitialLastID` | side_project/vuestagram/resources/js/store.js:11 | the stored `lastID`, or 0 |
| `VuexStore.JsonRoundTrip` | side_project/vuestagram/resources/js/store.js:9 | `JSON.parse(JSON.stringify(u))`: id and name kept; a NaN count comes back as `null`, any other count unchanged |
| `VuexStore.JsonRoundTripIdempotent` | side_project/vuestagram/resources/js/store.js:217 | writing the user back again changes nothing more; the round trip is the identity exactly when the count is not NaN |
| `VuexStore.Increment` | side_project/vuestagram/resources/js/store.js:30 | `boards_count++`: n + 1 for a number n, 1 for `null`, NaN for undefined or NaN |
| `VuexStore.LoginThenReload` | side_project/vuestagram/resources/js/store.js:69-71 | after a login, a reload starts logged in exactly when the access token is non-empty, with the user as JSON gave it back, and with the cursor unchanged |
| `VuexStore.NaNCountRestartsAfterReload` | side_project/vuestagram/resources/js/store.js:30 | a user without `boards_count` posts: the count is NaN, it is stored as `null`, and after a reload the next post makes it 1 |
| `VuexStore.LoginErrorCode` | side_project/vuestagram/resources/js/store.js:81 | the server's code when it is non-empty, otherwise `FE99`; never empty |
| `VuexStore.ReloadResumesLoadMoreCursor` | side_project/vuestagram/resources/js/store.js:172 | after "load more" stored `lastID`, a reload starts from that id |
| `VuexStore.FirstPageCursorIsNotRestored` | side_project/vuestagram/resources/js/store.js:138 | the first page writes `lastId`, which `state()` never reads: a reload's cursor is unchanged |
| `VuexStore.ReloadAfterLogout` | side_project/vuestagram/resources/js/store.js:109 | after `localStorage.clear()` a reload starts logged out, with `{}` and cursor 0 |
| `VuexStore.Store.constructor` | side_project/vuestagram/resources/js/store.js:6-14 | `state()`: each field from localStorage as above, empty list, flag false |
| `VuexStore.Store.SetAuthFlg` | side_project/vuestagram/resources/js/store.js:19-21 | sets `authFlg`, nothing else |
| `VuexStore.Store.SetUserInfo` | side_project/vuestagram/resources/js/store.js:26-28 | sets `userInfo`, nothing else |
| `VuexStore.Store.SetUserBoardsCount` | side_project/vuestagram/resources/js/store.js:29-31 | `boards_count` incremented, the rest of `userInfo` kept |
| `VuexStore.Store.SetNoMoreBoardListFlg` | side_project/vuestagram/resources/js/store.js:36-38 | sets the flag, nothing else |
| `VuexStore.Store.SetBoardList` | side_project/vuestagram/resources/js/store.js:39-41 | replaces the list wholesale |
| `VuexStore.Store.SetLastID` | side_project/vuestagram/resources/js/store.js:42-44 | sets the cursor |
| `VuexStore.Store.SetConcatBoardList` | side_project/vuestagram/resources/js/store.js:45-47 | the list becomes old list ++ data; old entries keep their positions, data follows |
| `VuexStore.Store.SetUnshiftBoardList` | side_project/vuestagram/resources/js/store.js:48-50 | the board is element 0, the length grows by one, every old element moves up one index |
| `VuexStore.Store.LoginSucceeded` | side_project/vuestagram/resources/js/store.js:67-78 | both tokens and the user (as JSON) stored; `authFlg` true and `userInfo` the response data; storage stays readable by `state()` |
| `VuexStore.Store.Logout` | side_project/vuestagram/resources/js/store.js:90-118 | success or failure alike: storage empty, `authFlg` false, `userInfo` `{}`; storage stays readable by `state()` |
| `VuexStore.Store.FirstPageReceived` | side_project/vuestagram/resources/js/store.js:133-140 | list replaced by the page; on a non-empty page `lastID` is its last id and `lastId` holds the array, on an empty page the throw leaves cursor and storage; the first page of a table mirrors it; storage stays readable by `state()` |
| `VuexStore.Store.MoreReceived` | side_project/vuestagram/resources/js/store.js:163-182 | non-empty: appended, cursor to the last id, flag untouched, `lastID` stored; empty: list unchanged, flag true, cursor 0, `lastID` removed; against the table's page the mirror is kept, and the empty page leaves the whole feed; storage stays readable by `state()` |
| `VuexStore.Store.PostSucceeded` | side_project/vuestagram/resources/js/store.js:212-217 | prepends only when the list holds more than one board; `boards_count` is incremented either way (by exactly one when it is a number); `userInfo` written back as JSON; storage stays readable by `state()` |

## Findings

| source | as written | input that shows it | evidently intended | confidence | as-written member | corrected member |
|---|---|---|---|---|---|---|
| side_project/vuestagram_session/app/Http/Controllers/BoardController.php:67-74 | the "insert" selects the board whose `boards.id` equals the user's id (`users.id = boards.id`) and overwrites it | boards (1, owner 2) and (2, owner 1); user 1 posts: board 1 of user 2 becomes user 1's and no board is added; user 3 with no board 3 cannot post at all | insert a new board with a fresh id owned by the user, which then heads the feed | not executed; high (the comment at line 66 says insert) | `BoardController.StoreOverwritesAnotherUsersBoard`, with `BoardController.StoreFailsWithoutBoardOfSameId` and `FeedPaging.AsWrittenPostBreaksFeedOrder` | `BoardController.StoreIntended`, proved by `BoardController.StoreIntendedHeadsIndex` and `FeedPaging.PostKeepsMirror` |

`BoardController.Database.Store` and `BoardController.StoreAsWritten` still
model the code as written. The client-side lemma about posting
(`FeedPaging.PostKeepsMirror`) uses the corrected insert.

## Left out

- VuexStore.LoginErrorCode: a login that fails without `error.response` (a
  network error) throws inside the catch at store.js line 81, so no code is
  reported at all. The function covers only failures with a server response.
- HTTP: the axios calls, request headers and URLs, `router.replace`, `alert`,
  `console` and `Log::debug` are I/O. Server answers are inputs to the client
  methods, and the JSON envelope (`code`, `msg`, `data`) is reduced to `data`.
- The route table that maps `/api/board/{lastId}/list` and `/api/board/{lastId}`
  to `index` and `moreIndex` is not part of this model. The lemmas that connect
  the client to the server take the page as `Index(t)` or `MoreIndex(t, lastID)`.
- The `catch` branches of `getBoardList`, `getAddBoardList` and `storeBoard`
  only raise an alert and change no state, so they are not separate methods.
  Only the login failure code is modelled (`LoginErrorCode`).
- Laravel: the Validator's `image` check is a boolean input (`Upload.isImage`).
  The `TrimStrings` middleware and the whitespace treatment of `required` are
  not modelled. Content length is the number of characters.
- `$request->file('img')->store('img')` writes to disk. Its path is an input,
  and its failure value `false` is not modelled.
- Eloquent: SQL generation, `updated_at` timestamps and `Auth`. `Auth::id()` is
  an integer input, because the auth middleware is not part of this model.
  `first()` with no `ORDER BY` is taken as the first matching row in storage
  order.
- Concurrency: a table that changes between page requests, and duplicate
  concurrent "load more" requests. The paging lemmas assume one table for the
  whole session; the posting lemma is the one exception.
- Aliasing: `setBoardList` keeps the response array itself, and a later
  `unshift` also changes that array. Here lists are values.
- `lastID` read back from `localStorage` is the string of the number. The model
  keeps the number, which concatenates into the URL the same way.
- VuexStore.Store.constructor: requires that 'userInfo' and 'lastID' hold the
  kinds of value the store itself writes. Every action keeps that property
  (`Readable(old(storage)) ==> Readable(storage)`). `JSON.parse` of foreign text, which
  may throw, is not modelled.
- DayUtils.NumberToString: models `String(n)` for integral numbers only. The
  exponent form from 10^21 and non-integral numbers are not modelled.
- DayUtils.DayDifference: timestamps are exact integers. Floating-point
  rounding of the division near 2^53 ms is not modelled.
- In `30.js`, the `Date` constructor, date parsing and clock reads
  (`new Date()` and its getters) are not modelled. The assembled
  `FOMAT_DATE` string and the 30-day "month" approximation (lines 72-79)
  are left out too.
- `php/ex/lib_db.php` (a PDO connection), `side_project/miniMultiBoard/view/information.php`
  (an HTML template) and `JavaScript/ex/04.js`, `29.js`, `43.js` (language,
  floating-point and DOM demos) are not part of this model.

# Board aggregate of mohae, modelled in Dafny

mohae is a marketplace backend. Users post boards: offers or requests for help, each with a price, a category, an area, an optional deadline and a list of photos. This project models the part of it that has rules of its own:

- **The board table** (`Boards`, `BoardRepo`): the rows, the updates the repository issues, and the deadline sweep.
- **The listing queries** (`BoardQueries`): the filter/rank query, the title search, the full listing and the hot-board pick.
- **The board service** (`BoardService`):
  - the daily view cache and its bulk flush;
  - the owner-gated close, reopen and soft delete;
  - the filter request;
  - the create and edit flows, which run as one transaction over the board and photo tables.
- **Three smaller rule sets**: filing a report (`Reports`), the category listings (`Categories`), and the review repository (`Reviews`).

## How the model is built

- **Tables.** A table is a `seq` of rows held in a class (`BoardRepository`, `PhotoRepository`, `ReviewRepository`). It sits next to an AUTO_INCREMENT counter. `BoardRepository.Valid()` keeps keys unique and below the counter.
  - **Writes.** Every write method states the whole new table, by a function of the old table (`Sweep`, `WithHits`, `WithFlag`, `SoftDeleted`, `Patched`). It also states the affected-row count the SQL would report.
  - **Reads.** Read queries are functions from the table to the rows returned; ordering is stated with `SortedBy`.
- **Soft delete.** A select query skips soft-deleted rows. An UPDATE through the query builder does not, and neither does raw SQL.
- **SQL NULL.** A comparison with NULL selects nothing.
- **Errors.** An error is `Error(status, reason)`:
  - `status` is the exception class: BadRequest, Unauthorized, NotFound, InternalServerError or BadGateway;
  - `reason` names the check that raised it.

  The order in which the checks run is stated by a `...Rejection` function for each flow, and each flow's method is proved against it.
- **Transactions.** A rolled-back transaction restores both tables. A board key taken by an insert stays taken, since AUTO_INCREMENT is not rolled back. The query runner count `openRunners` is back to its old value on every path.
- **Time.** Time is an integer number of milliseconds. `KoreaTime(now)` is the server clock plus nine hours. Adding `d` days adds `d * DayMs`.
- **Store outcomes as parameters.** What the store does that the code merely reacts to is a parameter of the method:
  - `accepted`: whether the store accepts an insert;
  - `saved`: how many photo rows it saves;
  - `inserted`: whether a report insert succeeds;
  - `categories`, `areas`, `boards`, `users`: the keys its lookups find.

## Model

| member | source | states |
|---|---|---|
| Common.AddDays | mohae/src/boards/boards.service.ts:484-486 | adding a positive, zero or negative number of days moves a time later, nowhere or earlier |
| Boards.FindVisible | mohae/src/boards/boards.service.ts:243-247 | the board lookup returns a non-deleted row with the requested key, and returns nothing exactly when no such row exists |
| Boards.PhotosOf | mohae/src/boards/boards.service.ts:556-559 | the photos read for a board are exactly the stored photos that belong to it |
| Boards.ApplyPatch | mohae/src/boards/repository/board.repository.ts:331-337 | `SET` writes every column named in the patch and leaves every other column; the key, author, views, closed flag and timestamps never change |
| BoardRepo.Sweep | mohae/src/boards/repository/board.repository.ts:146-153 | after the sweep each row is closed if it was open with a non-null deadline at or before the time, and is otherwise unchanged |
| BoardRepo.SweepIdempotent | mohae/src/boards/repository/board.repository.ts:149-151 | a second sweep at the same time matches no row and changes nothing |
| BoardRepo.SweepExact | mohae/src/boards/repository/board.repository.ts:146-153 | after a sweep at `t` a row is closed iff it was closed before or its deadline is at or before `t`; no other column moves |
| BoardRepo.SweepWithoutTimeIsNoop | mohae/src/boards/repository/board.repository.ts:150 | with a NULL time the sweep matches no row and leaves the table as it was |
| BoardRepo.CountNoUnique | mohae/src/boards/repository/board.repository.ts:133 | with unique keys, `WHERE no = :no` matches at most one row, and exactly one iff some row has that key |
| BoardRepo.BoardRepository.ClosingBoard | mohae/src/boards/repository/board.repository.ts:144-160 | the table becomes the sweep of the old table; the reported count is the number of rows the sweep matched |
| BoardRepo.BoardRepository.BoardClosed | mohae/src/boards/repository/board.repository.ts:128-142 | sets the closed flag of the rows with that key, changes nothing else, and reports how many rows had the key |
| BoardRepo.BoardRepository.CancelClosedBoard | mohae/src/boards/repository/board.repository.ts:112-126 | clears the closed flag of the rows with that key, changes nothing else, and reports how many rows had the key |
| BoardRepo.BoardRepository.AddBoardHit | mohae/src/boards/repository/board.repository.ts:96-110 | the row with that key gets the given count plus one, every other row is untouched, and the match count is reported |
| BoardRepo.BoardRepository.UpdateBoard | mohae/src/boards/repository/board.repository.ts:331-345 | the row with that key takes the patch, the other rows are untouched, and the match count is reported |
| BoardRepo.BoardRepository.DeleteBoard | mohae/src/boards/repository/board.repository.ts:347-361 | the row with that key is tombstoned and stays in the table; no other row changes |
| BoardRepo.BoardRepository.CreateBoard | mohae/src/boards/repository/board.repository.ts:284-329 | an accepted insert appends one open, unviewed, live row with the next key and reports that key; a rejected one writes nothing and reports zero rows |
| BoardRepo.BoardRepository.SetHits | mohae/src/boards/boards.service.ts:198-213 | every row whose key is cached takes the cached count, deleted rows included, and every other row is untouched; the reported count is the number of rows with a cached key |
| BoardRepo.WithHits | mohae/src/boards/boards.service.ts:198-205 | the `CASE` update touches only the hit column of rows whose key is in the map |
| PhotoRepo.PhotoRepository.CreateBoardPhoto | mohae/src/boards/boards.service.ts:413-415 | the saved rows are a prefix of the requested ones and are appended to the table |
| PhotoRepo.PhotoRepository.DeleteBoardPhoto | mohae/src/boards/boards.service.ts:561-564 | removes exactly the board's photos, keeps every other photo, and reports how many were removed |
| BoardQueries.FilteredBoards | mohae/src/boards/repository/board.repository.ts:190-254 | returns exactly the live rows meeting every truthy constraint, each as often as in the table, sorted by `no` in the `sort` direction, or by `hit` descending when `popular` is truthy |
| BoardQueries.FreeWithMinIsEmpty | mohae/src/boards/repository/board.repository.ts:233-245 | `free` with a positive `min` returns nothing |
| BoardQueries.DateWindowIsStrict | mohae/src/boards/repository/board.repository.ts:239-244 | with a truthy `date` every row returned has a deadline strictly between the current time and the window end |
| BoardQueries.NaNDateKeepsDeadlines | mohae/src/boards/repository/board.repository.ts:236-238 | with no parameters (`date` is NaN) a board with a deadline is still returned |
| BoardQueries.FilteredBoardsIntended | mohae/src/boards/repository/board.repository.ts:236-238 | with the NaN test as intended, a NaN date returns only boards without a deadline, with otherwise the same rows and order |
| BoardQueries.IntendedDateBranches | mohae/src/boards/repository/board.repository.ts:236-244 | under the intended filter the NaN and truthy-date branches select disjoint kinds of board, and every row is also one the written filter returns |
| BoardQueries.SearchAllBoards | mohae/src/boards/repository/board.repository.ts:162-188 | returns exactly the live rows whose title contains the text, newest key first |
| BoardQueries.GetAllBoards | mohae/src/boards/repository/board.repository.ts:256-282 | returns exactly the live rows whose area and category exist, newest key first |
| BoardQueries.ReadHotBoards | mohae/src/boards/repository/board.repository.ts:79-87 | at most three rows, taken in ranking order; `select = 1` gives only open boards and `select = 2` only closed ones; fewer than three only when no further candidate exists |
| BoardQueries.NewestFirst | mohae/src/boards/repository/board.repository.ts:275 | `ORDER BY no DESC` over unique keys is strictly decreasing |
| BoardQueries.ListingsNewestFirstOnce | mohae/src/boards/repository/board.repository.ts:162-282 | the search, the full listing, and the filter with `sort = DESC` and no `popular` list each board once, in strictly decreasing key order |
| Categories.HotRanking | mohae/src/categories/repository/category.repository.ts:100-103 | the categories with positive hit, in non-increasing hit order |
| Categories.ReadHotCategories | mohae/src/categories/repository/category.repository.ts:98-111 | at most three categories, each with a positive hit, in non-increasing hit order, the top of the ranking |
| Categories.HotCategoriesAreTop | mohae/src/categories/repository/category.repository.ts:102-104 | no hot category left out ranks above one that was picked |
| Categories.Lookup | mohae/src/categories/repository/category.repository.ts:66-69 | finds a category with the key, and finds none exactly when none exists |
| Categories.SelectCategory | mohae/src/categories/repository/category.repository.ts:63-84 | exactly three results; result `i` is a category with key `ids[i]` when one exists and `ids` has a position `i`, and nothing otherwise |
| Categories.FindOneCategory | mohae/src/categories/repository/category.repository.ts:22-61 | a server error exactly when the category does not exist; otherwise its name and exactly its live boards, in non-increasing key order |
| Categories.CategoryPageNewestFirstOnce | mohae/src/categories/repository/category.repository.ts:50-52 | with unique keys the page lists each board once, in strictly decreasing key order |
| Categories.FindAllCategory | mohae/src/categories/repository/category.repository.ts:10-20 | only categories that have boards, each listed with exactly its live boards |
| Categories.FindAllCategoryCovers | mohae/src/categories/repository/category.repository.ts:12-15 | every category that has a live board appears |
| Reviews.CheckDuplicateReview | mohae/src/reviews/repository/review.repository.ts:98-122 | true iff some live review has the reviewer `targetUserNo`, the reviewed user `requesterNo` and the board |
| Reviews.OwnReviewsAreNotDuplicates | mohae/src/reviews/repository/review.repository.ts:109-113 | because the roles are swapped, when requester and target differ, the reviews the requester wrote about the target never count as a duplicate, on any board |
| Reviews.Window | mohae/src/reviews/repository/review.repository.ts:86-87 | drops `skip` rows and keeps the next `take` of them, or every remaining row when fewer remain or `take` is 0; nothing when `skip` passes the end; the rows kept are a contiguous slice |
| Reviews.ReadUserReviews | mohae/src/reviews/repository/review.repository.ts:60-96 | the page holds only live reviews the user received, at most `take` of them, at the page's offset; the count is all such reviews |
| Reviews.WindowsTile | mohae/src/reviews/repository/review.repository.ts:86-87 | two adjacent windows of `n` rows form the window of `2n` rows |
| Reviews.PagesTile | mohae/src/reviews/repository/review.repository.ts:86-87 | pages `p` and `p + 1` together are the `2 * take` rows from where page `p` starts |
| Reviews.NextPageStart | mohae/src/reviews/repository/review.repository.ts:87 | the next page starts `take` rows after this one |
| Reviews.ReviewRepository.CreateReview | mohae/src/reviews/repository/review.repository.ts:15-32 | inserts one live row with exactly the given description, rating, reviewer, reviewed user and board, under the next key |
| Reviews.CreatedReviewIsSeen | mohae/src/reviews/repository/review.repository.ts:15-32 | after A reviews B on a board, B's duplicate check about A on that board is true and B's received count grows by one |
| Reports.IndexOf | mohae/src/reports/reports.service.ts:83 | `indexOf` gives the first position of the value, or -1 exactly when it is absent |
| Reports.DistinctProperties | mohae/src/reports/reports.service.ts:82-84 | the reference de-duplication keeps exactly the values of the list, each once |
| Reports.KeepFirstIsDistinct | mohae/src/reports/reports.service.ts:82-84 | the index filter over a prefix is the keep-the-first-occurrence rule |
| Reports.UniqueChecksCorrect | mohae/src/reports/reports.service.ts:82-84 | the de-duplicated checks are the first occurrences in original order: the same values, none repeated |
| Reports.ReportRejection | mohae/src/reports/reports.service.ts:90-200 | refuses exactly when the head is unknown, the target is missing, the reporter is missing or the insert fails, checked in that order: NotFound for the first three, InternalServerError for a failed insert |
| Reports.Link | mohae/src/reports/reports.service.ts:130-136 | adding a report to a relation appends it under its owner and leaves the other owners alone |
| Reports.ReportsService.CreateReport | mohae/src/reports/reports.service.ts:79-205 | a refusal writes nothing; success stores one report with the de-duplicated checks under the next key of its table, links it to the target and to the reporter, and returns `{success: true, reportNo}` |
| BoardService.RecordView | mohae/src/boards/boards.service.ts:167-188 | a view adds or updates only the viewed board's entry |
| BoardService.CachedViewsCount | mohae/src/boards/boards.service.ts:175-180 | once cached with a positive count, each view adds one whatever baseline is passed, and no other entry moves |
| BoardService.ViewsAccumulate | mohae/src/boards/boards.service.ts:182-185 | `k` views of an uncached board with count `h` leave `h + k` cached; only the first view reads the baseline |
| BoardService.FlushAfterViews | mohae/src/boards/boards.service.ts:167-220 | views followed by the flush raise the board's stored count by the number of views and leave every other row as it was |
| BoardService.BoardsService.GetBoardHit | mohae/src/boards/boards.service.ts:167-188 | stores and returns the cached count plus one when it is truthy, and the passed board's count plus one otherwise |
| BoardService.CaseBranches | mohae/src/boards/boards.service.ts:198-205 | the loop writes one `CASE` branch per cached key, with that key's count |
| BoardService.BoardsService.UpdateHit | mohae/src/boards/boards.service.ts:190-220 | no cache: returns 0 and writes nothing; an empty cache: the malformed `IN ()` fails as a server error; otherwise each cached board takes its cached count; the cache is gone afterwards on every path |
| BoardService.CloseRejection | mohae/src/boards/boards.service.ts:241-263 | refuses a missing board, then a non-author, then a closed board; accepts exactly an open board of its author |
| BoardService.ReopenRejection | mohae/src/boards/boards.service.ts:269-300 | refuses a missing board, then a non-author, then a passed deadline (before the closed flag is read), then an open board |
| BoardService.DeleteRejection | mohae/src/boards/boards.service.ts:422-434 | refuses a missing board, then a non-author; accepts exactly a board of its author |
| BoardService.BoardsService.BoardClosed | mohae/src/boards/boards.service.ts:241-267 | a refusal writes nothing; acceptance closes exactly that board |
| BoardService.BoardsService.CancelClosedBoard | mohae/src/boards/boards.service.ts:269-308 | a refusal writes nothing; acceptance reopens exactly that board |
| BoardService.BoardsService.DeleteBoard | mohae/src/boards/boards.service.ts:422-447 | a refusal writes nothing; acceptance tombstones exactly that board |
| BoardService.FindVisibleUnique | mohae/src/boards/boards.service.ts:243-247 | with unique keys the lookup returns the one live row with the key |
| BoardService.FindAfterFlag | mohae/src/boards/boards.service.ts:259 | after the flag is written, the lookup sees the new flag |
| BoardService.CloseTwiceRefused | mohae/src/boards/boards.service.ts:251-253 | a board just closed is refused a second close as already closed |
| BoardService.CloseReopenRoundTrip | mohae/src/boards/boards.service.ts:241-308 | closing and reopening a board whose deadline has not passed is accepted and restores the table |
| BoardService.DeletedIsHidden | mohae/src/boards/boards.service.ts:422-447 | after the delete, the lookup no longer finds the board, though its row stays |
| BoardService.BoardsService.ClosingBoardAsWritten | mohae/src/boards/boards.service.ts:63-71 | the service's sweep passes no time, so it closes nothing and reports 0 |
| BoardService.ClosingWithoutTimeMissesExpired | mohae/src/boards/boards.service.ts:65 | a board past its deadline is swept with the shifted clock and missed with no time |
| BoardService.BoardsService.ClosingBoard | mohae/src/boards/repository/board.repository.ts:144-160 | the sweep with the shifted clock closes every open board whose deadline has passed |
| BoardService.NumberRoundTrip | mohae/src/boards/boards.service.ts:87 | `+s` reads a decimal string back as the number it shows |
| BoardService.Without | mohae/src/boards/boards.service.ts:89-97 | exactly the entries whose value is not the dropped one, with their values |
| BoardService.KeepAllBut | mohae/src/boards/boards.service.ts:89-97 | the `forEach` copy keeps exactly the entries whose value is not the dropped one |
| BoardService.DateWindowFromService | mohae/src/boards/boards.service.ts:80-104 | a board returned for a numeric, non-zero `date` of `d` days has a deadline strictly after the shifted clock and strictly before `d` days past it, so a negative `date` returns nothing |
| BoardService.BoardsService.FilteredBoards | mohae/src/boards/boards.service.ts:73-110 | passes the request minus its `'null'`-valued keys, `+date`, the window end and the shifted clock |
| BoardService.EndTimeFrom | mohae/src/boards/boards.service.ts:361-366 | no deadline exactly when the days are falsy; a positive number of days puts the deadline after the shifted clock, a negative one before it |
| BoardService.PastDeadlineCreatedNotEdited | mohae/src/boards/boards.service.ts:484-492 | a negative number of days gives a new board a deadline already behind the shifted clock, while the edit of a board created no later than that clock refuses the same days with BadRequest |
| BoardService.BoardPhotos | mohae/src/boards/boards.service.ts:403-411 | URL `i` becomes photo `i + 1` of the board, one photo per URL |
| BoardService.Urls | mohae/src/boards/boards.service.ts:573-575 | the URLs of the photos, in order |
| BoardService.PhotosReadBack | mohae/src/boards/boards.service.ts:398-420 | photos registered for a board that had none read back as exactly the uploaded URLs, in upload order |
| BoardService.CreateRejection | mohae/src/boards/boards.service.ts:335-382 | refuses, in order: no photo list (BadRequest), a missing category, then a missing area (NotFound), a refused insert, then a short photo insert (BadGateway); each branch's error is fixed once the earlier checks pass; accepts otherwise |
| BoardService.BoardsService.RegistBoardPhotos | mohae/src/boards/boards.service.ts:398-420 | writes the numbered photos; fails exactly when fewer rows are saved than requested |
| BoardService.BoardsService.CreateBoard | mohae/src/boards/boards.service.ts:325-396 | a refusal leaves both tables as they were; success appends the new row and, unless the upload is the placeholder, its numbered photos; the runner is released on every path |
| BoardService.UpdatePatch | mohae/src/boards/boards.service.ts:482-509 | the `SET` clause is well typed for the table |
| BoardService.BoardsService.BuildPatch | mohae/src/boards/boards.service.ts:496-509 | the `duplicateCheck` loop builds exactly the edit's `SET` clause |
| BoardService.EditWritesNonNullOnly | mohae/src/boards/boards.service.ts:482-509 | an edit writes every non-null requested column, keeps a column requested as null, sets the deadline to `createdAt` plus the days or to null, and never touches key, author, views, state or timestamps |
| BoardService.UpdateRejection | mohae/src/boards/boards.service.ts:460-541 | refuses, in order: no photo list (NotFound, where create says BadRequest), a missing board (NotFound), a non-author (Unauthorized), a new deadline not in the future (BadRequest), a missing category, then a missing area (NotFound), then a short photo insert (BadGateway); each branch's error is fixed once the earlier checks pass |
| BoardService.Patched | mohae/src/boards/repository/board.repository.ts:331-337 | only the row with the key changes, and it takes the patch |
| BoardService.BoardsService.UpdateBoardPhoto | mohae/src/boards/boards.service.ts:550-582 | the board's photos are removed whenever it has any, even for the placeholder; then, unless the upload is the placeholder, the new photos are written and the old URLs returned |
| BoardService.BoardsService.WriteEdit | mohae/src/boards/boards.service.ts:528-541 | the row takes the patch, and then the photos are replaced |
| BoardService.BoardsService.UpdateBoard | mohae/src/boards/boards.service.ts:449-548 | a refusal leaves both tables as they were; success patches the row and replaces the photos as above; the runner is released on every path |
| BoardService.FindOneCategory | mohae/src/boards/boards.service.ts:603-629 | NotFound exactly for an unknown category; category 1 lists every board; any other category lists exactly its own live boards |

## Notes on the reading of the code

- `boardClosed`, `cancelClosedBoard` and `deleteBoard` pass `board.no` to their not-found check. The repository's `readOneBoardByAuth` lookup is not part of this model; it is taken to yield `undefined` when no live row has the key. Then reading `board.no` throws a TypeError, and the framework turns that into a server error. So `CloseRejection`, `ReopenRejection` and `DeleteRejection` give InternalServerError for a missing board. `updateBoard` checks the board itself and gives NotFound.
  - Another reading is possible. If `readOneBoardByAuth` is built like `getByOneBoard` (board.repository.ts:26, 44-48: an aggregate `COUNT` without `GROUP BY`, read with `getRawOne`), a missing board comes back as a row of NULLs. Then those three give NotFound, and `updateBoard` passes its not-found check and gives Unauthorized. The model follows the `undefined` reading.
- `ErrorConfirm.notFoundError` is not part of this model. It is taken to throw NotFound on a falsy value.
- **Unreachable guards.** These `!result` checks can never fire, and each method proves it:
  - the one after the close and after the reopen: the update matches exactly the row the lookup found;
  - the one after the edit: the same reason;
  - `!deleteBoardPhoto`: it runs only when photos exist.

  The delete's own `!result` check cannot fire either, because the repository returns a result object. None of these paths appears in the model.
- Some service calls do not match the repository signature. Each function is modelled against its own signature:
  - the service calls the repository's `closingBoard` without a time (see Findings);
  - `filteredBoards` passes 4 arguments where the repository takes 12;
  - `searchAllBoards` passes the request object where a title is expected;
  - `findOneCategory` calls `boardRepository.findOneCategory(no, paginationDto)` and `getAllBoards(paginationDto)`. The board repository shown defines no `findOneCategory`, and its `getAllBoards` takes no argument. The model assumes the call is answered as the category repository's `findOneCategory(no)` answers it (category.repository.ts:22-61), which is also a server error when the lookup finds nothing.

  For these, `BoardsService.FilteredBoards` models what the service computes and passes, and `BoardQueries.FilteredBoards` models the query for a given typed filter. The unshown library code that routes one to the other is not modelled.
- **What the cache holds.** The cache holds absolute counts, not increments. The flush writes them as they are. When a board's table count rises between two views, its count is overwritten, as the code does.
- **`endDate` and `deadline`.** `cancelClosedBoard` compares `board.endDate`; it is taken to be the board's deadline.
- **Photo order.** Photos read back for an edit are taken in table order.
- **Order of `findAllCategory`.** `findAllCategory` lists categories in table order.

## Left out

- Controllers, modules, DTO validation, the S3 uploader (the aws module), and `readOneBoardByAuth` and `readOneBoardByUnAuth` with their like count and user lookup: routing, I/O and code not part of this model.
- The cache's time-to-live, the cron schedule of the sweep and the flush, and concurrency between requests and transaction isolation: the model is sequential.
- `updateHit`'s `catch`: any store failure becomes a server error. Only the empty-map failure is modelled.
- `readHotBoards` in the service and in the repository: only the repository's `select` filter and limit are modelled.
  - The ranking expression `hit / DATEDIFF(...)` and the year/month filter are left out. `ReadHotBoards` takes the query's rows already in ranking order.
  - The query left-joins `boards.likedUser` and selects `likedUsers` with no `GROUP BY`, so its rows are joined rows: a board with several likes appears once per like. `LIMIT 3` then counts joined rows, and one board can take several of the three slots. `ranked` stands for those joined rows; the model does not build the join.
  - The repository's `catch` swallows a query error and returns `undefined`; that path is not modelled.
  - The service's fallback to `replaceReadHotBoards`, and the dead `month === 12` branch, are also left out.
- The display columns (`decimalDay`, nicknames, area names, photo URLs in listings): the model returns whole rows.
- `LIKE` is modelled as case-sensitive substring search; wildcard characters inside the searched text are not modelled. `BoardService.ToNumber` reads only an optional sign and decimal digits; whitespace, hexadecimal and exponent forms are not modelled.
- BoardService.ToNumber: decimal fractions are not read. For `date = "1.5"`, `+date` is 1.5, which is truthy, and `setDate` truncates it, so the code applies a one-day window. The model's `ToNumber` gives `None`, so `WindowEnd` gives no window.
- `userRelation` and `saveCategory` in `createBoard`: relation writes to tables outside the model. Their failures are not modelled.
- `createBoard`'s `+deadline` is taken as a number, and so is `updateBoard`'s `deadline`. The code does not coerce the latter, so a string there would concatenate rather than add; the request is typed in the model.
- `UpdateRequest` carries typed values for a subset of the columns (price, title, description, summary, target), plus category, area and deadline. The database's coercion of other values is not modelled.
- `categoryNo` and `areaNo` are required integers, so `findOne(undefined)` never occurs.
- The photo repository's own code is not part of this model. `PhotoRepository` is given the plain behaviour the service relies on.
- The report checks saved by the unawaited `forEach` (reports.service.ts:123-128, 177-182); only their de-duplication is modelled. `readOneReportedBoard` and `readOneReportedUser` are also left out.
- `readUserReviews` calls `take` and `skip` on a query with joins and reads it with `getRawMany` (review.repository.ts:67-89). How the query builder turns those into SQL in that case is library code that is not part of this model; the model applies them to the list of reviews. `ReadUserReviews` requires `page >= 1`; a smaller page would give a negative offset.
- `paginationDto`: the model leaves it out. The service accepts it in `findOneCategory` and passes it on, but the repository methods shown (`getAllBoards`, the category repository's `findOneCategory`) take no pagination argument. What the unshown `boardRepository.findOneCategory` does with it is not modelled.
- `addUser` in the category repository: a relation write outside the board aggregate.

## Findings

| source | as written | input that shows it | evidently intended | confidence | as-written member | corrected member |
|---|---|---|---|---|---|---|
| mohae/src/boards/boards.service.ts:65 | `closingBoard()` calls the repository sweep without a time, so `deadline <= NULL` matches no row | any open board whose deadline has passed: `ClosingWithoutTimeMissesExpired` counts 0 matches with no time and 1 with the shifted clock | pass the shifted current time, as the other deadline checks do | not executed | BoardService.BoardsService.ClosingBoardAsWritten | BoardService.BoardsService.ClosingBoard |
| mohae/src/boards/repository/board.repository.ts:236 | `date === NaN` is always false, so a NaN `date` never adds `deadline is null` | a request with no `date` and a board with a deadline: `NaNDateKeepsDeadlines` returns that board | `Number.isNaN(date)`: a NaN date selects only boards without a deadline | not executed | BoardQueries.FilteredBoards | BoardQueries.FilteredBoardsIntended |

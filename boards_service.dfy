/** The board service: the daily view cache and its flush, the owner-gated close and
    reopen, the soft delete, the filter request, and the create and edit flows that run in
    one transaction over the board and photo tables. */
module BoardService {
  import opened Common
  import opened Sql
  import opened Boards
  import opened BoardRepo
  import opened BoardQueries
  import opened PhotoRepo
  import Categories

  // ---------------------------------------------------------------------------
  // The daily view cache
  // ---------------------------------------------------------------------------

  /** The count a view stores: one more than the cached count when there is a truthy one,
      otherwise one more than the count the caller read from the table. */
  function ViewedHit(m: map<int, int>, no: int, baseline: int): int
  {
    if no in m && m[no] != 0 then m[no] + 1 else baseline + 1
  }

  /** The cache after one view of board `no`. */
  function RecordView(m: map<int, int>, no: int, baseline: int): (r: map<int, int>)
    ensures r.Keys == m.Keys + {no}
    ensures forall k :: k in m && k != no ==> r[k] == m[k]
  {
    m[no := ViewedHit(m, no, baseline)]
  }

  /** `(await cache.get('dailyView')) || {}`. */
  function CacheOrEmpty(cache: Option<map<int, int>>): map<int, int>
  {
    if cache.Some? then cache.value else map[]
  }

  /** Successive views of board `no`; `baselines[i]` is the table's count at view `i`. */
  function Views(m: map<int, int>, no: int, baselines: seq<int>): map<int, int>
    decreases |baselines|
  {
    if baselines == [] then m
    else Views(RecordView(m, no, baselines[0]), no, baselines[1..])
  }

  /** Once a board is cached with a positive count, each view adds one, whatever the
      table says, and no other entry moves. */
  lemma {:induction false} CachedViewsCount(m: map<int, int>, no: int, baselines: seq<int>)
    requires no in m && m[no] >= 1
    ensures var r := Views(m, no, baselines);
      r.Keys == m.Keys && r[no] == m[no] + |baselines| && forall k :: k in m && k != no ==> r[k] == m[k]
    decreases |baselines|
  {
    if baselines != [] {
      var next := RecordView(m, no, baselines[0]);
      assert next[no] == m[no] + 1;
      CachedViewsCount(next, no, baselines[1..]);
    }
  }

  /** `k` views of an uncached board whose table count is `h` leave `h + k` in the cache;
      only the first view reads the table. */
  lemma ViewsAccumulate(m: map<int, int>, no: int, baselines: seq<int>)
    requires no !in m
    requires baselines != [] && baselines[0] >= 0
    ensures var r := Views(m, no, baselines);
      r.Keys == m.Keys + {no} && r[no] == baselines[0] + |baselines|
      && forall k :: k in m ==> r[k] == m[k]
  {
    var first := RecordView(m, no, baselines[0]);
    assert first[no] == baselines[0] + 1;
    CachedViewsCount(first, no, baselines[1..]);
  }

  /** Views followed by the flush: the board's stored count grows by the number of views
      and every other row is untouched. */
  lemma FlushAfterViews(rows: seq<Board>, i: int, baselines: seq<int>)
    requires 0 <= i < |rows| && rows[i].hit >= 0
    requires baselines != [] && baselines[0] == rows[i].hit
    ensures var after := WithHits(rows, Views(map[], rows[i].no, baselines));
      after[i].hit == rows[i].hit + |baselines|
      && forall j :: 0 <= j < |rows| && rows[j].no != rows[i].no ==> after[j] == rows[j]
  {
    ViewsAccumulate(map[], rows[i].no, baselines);
  }

  // ---------------------------------------------------------------------------
  // Owner-gated state changes
  // ---------------------------------------------------------------------------

  /** The checks `boardClosed` runs before it writes, in order. Like `cancelClosedBoard` and
      `deleteBoard`, it reads `board.no` before its not-found check, so a missing board
      fails as a server error rather than NotFound. */
  function CloseRejection(board: Option<Board>, userNo: int): (r: Option<Error>)
    ensures r.None? <==> board.Some? && board.value.userNo == userNo && !board.value.isDeadline
    ensures board.None? ==> r == Some(Error(InternalServerError, BoardMissing))
    ensures board.Some? && board.value.userNo != userNo ==> r == Some(Error(Unauthorized, NotAuthor))
    ensures board.Some? && board.value.userNo == userNo && board.value.isDeadline ==>
      r == Some(Error(BadRequest, AlreadyClosed))
  {
    if board.None? then Some(Error(InternalServerError, BoardMissing))
    else if board.value.userNo != userNo then Some(Error(Unauthorized, NotAuthor))
    else if board.value.isDeadline then Some(Error(BadRequest, AlreadyClosed))
    else None
  }

  /** The board's deadline has passed on the shifted clock. */
  predicate PastDeadline(b: Board, now: int)
  {
    b.deadline.Some? && b.deadline.value <= KoreaTime(now)
  }

  /** The checks `cancelClosedBoard` runs before it writes, in order: a missing board fails
      as in `CloseRejection`, and a passed deadline is reported before the board's flag is
      looked at. */
  function ReopenRejection(board: Option<Board>, userNo: int, now: int): (r: Option<Error>)
    ensures r.None? <==>
      board.Some? && board.value.userNo == userNo && !PastDeadline(board.value, now) && board.value.isDeadline
    ensures board.None? ==> r == Some(Error(InternalServerError, BoardMissing))
    ensures board.Some? && board.value.userNo != userNo ==> r == Some(Error(Unauthorized, NotAuthor))
    ensures board.Some? && board.value.userNo == userNo && PastDeadline(board.value, now) ==>
      r == Some(Error(BadRequest, ClosedByTime))
    ensures board.Some? && board.value.userNo == userNo && !PastDeadline(board.value, now) && !board.value.isDeadline ==>
      r == Some(Error(BadRequest, StillOpen))
  {
    if board.None? then Some(Error(InternalServerError, BoardMissing))
    else if board.value.userNo != userNo then Some(Error(Unauthorized, NotAuthor))
    else if PastDeadline(board.value, now) then Some(Error(BadRequest, ClosedByTime))
    else if !board.value.isDeadline then Some(Error(BadRequest, StillOpen))
    else None
  }

  /** The checks `deleteBoard` runs before it writes; a missing board fails as in
      `CloseRejection`. */
  function DeleteRejection(board: Option<Board>, userNo: int): (r: Option<Error>)
    ensures r.None? <==> board.Some? && board.value.userNo == userNo
    ensures board.None? ==> r == Some(Error(InternalServerError, BoardMissing))
    ensures board.Some? && board.value.userNo != userNo ==> r == Some(Error(Unauthorized, NotAuthor))
  {
    if board.None? then Some(Error(InternalServerError, BoardMissing))
    else if board.value.userNo != userNo then Some(Error(Unauthorized, NotAuthor))
    else None
  }

  /** The table with `isDeadline` of row `no` set to `flag`. */
  function WithFlag(rows: seq<Board>, no: int, flag: bool): (r: seq<Board>)
    ensures |r| == |rows|
    ensures forall i :: 0 <= i < |rows| ==>
      r[i] == if rows[i].no == no then rows[i].(isDeadline := flag) else rows[i]
  {
    seq(|rows|, i requires 0 <= i < |rows| =>
      if rows[i].no == no then rows[i].(isDeadline := flag) else rows[i])
  }

  /** The table with row `no` tombstoned at `now`. */
  function SoftDeleted(rows: seq<Board>, no: int, now: int): (r: seq<Board>)
    ensures |r| == |rows|
    ensures forall i :: 0 <= i < |rows| ==>
      r[i] == if rows[i].no == no then rows[i].(deletedAt := Some(now)) else rows[i]
  {
    seq(|rows|, i requires 0 <= i < |rows| =>
      if rows[i].no == no then rows[i].(deletedAt := Some(now)) else rows[i])
  }

  /** With unique keys, the lookup finds exactly the visible row that carries the key. */
  lemma {:induction false} FindVisibleUnique(rows: seq<Board>, i: int)
    requires UniqueNos(rows) && 0 <= i < |rows| && Visible(rows[i])
    ensures FindVisible(rows, rows[i].no) == Some(rows[i])
  {
    if i > 0 {
      assert rows[0].no != rows[i].no;
      assert UniqueNos(rows[1..]) by {
        forall a, b | 0 <= a < b < |rows[1..]| ensures rows[1..][a].no != rows[1..][b].no {
          assert rows[1..][a] == rows[a + 1] && rows[1..][b] == rows[b + 1];
        }
      }
      assert rows[1..][i - 1] == rows[i];
      FindVisibleUnique(rows[1..], i - 1);
    }
  }

  /** Changing the flag of the found row is seen by the next lookup. */
  lemma FindAfterFlag(rows: seq<Board>, no: int, flag: bool)
    requires UniqueNos(rows) && FindVisible(rows, no).Some?
    ensures UniqueNos(WithFlag(rows, no, flag))
    ensures FindVisible(WithFlag(rows, no, flag), no) == Some(FindVisible(rows, no).value.(isDeadline := flag))
  {
    var b := FindVisible(rows, no).value;
    var i :| 0 <= i < |rows| && rows[i] == b;
    var after := WithFlag(rows, no, flag);
    assert forall j :: 0 <= j < |rows| ==> after[j].no == rows[j].no;
    assert after[i] == b.(isDeadline := flag);
    FindVisibleUnique(after, i);
  }

  /** A board that was just closed cannot be closed again. */
  lemma CloseTwiceRefused(rows: seq<Board>, no: int, userNo: int)
    requires UniqueNos(rows)
    requires CloseRejection(FindVisible(rows, no), userNo).None?
    ensures CloseRejection(FindVisible(WithFlag(rows, no, true), no), userNo) == Some(Error(BadRequest, AlreadyClosed))
  {
    FindAfterFlag(rows, no, true);
  }

  /** Closing and then reopening a board whose deadline has not passed is allowed and
      gives back the table as it was. */
  lemma CloseReopenRoundTrip(rows: seq<Board>, no: int, userNo: int, now: int)
    requires UniqueNos(rows)
    requires CloseRejection(FindVisible(rows, no), userNo).None?
    requires !PastDeadline(FindVisible(rows, no).value, now)
    ensures ReopenRejection(FindVisible(WithFlag(rows, no, true), no), userNo, now).None?
    ensures WithFlag(WithFlag(rows, no, true), no, false) == rows
  {
    FindAfterFlag(rows, no, true);
    var b := FindVisible(rows, no).value;
    var i :| 0 <= i < |rows| && rows[i] == b;
    var back := WithFlag(WithFlag(rows, no, true), no, false);
    forall j | 0 <= j < |rows| ensures back[j] == rows[j] {
      if rows[j].no == no {
        assert j == i;
      }
    }
  }

  /** A soft-deleted board can no longer be found, though its row stays in the table. */
  lemma DeletedIsHidden(rows: seq<Board>, no: int, now: int)
    ensures FindVisible(SoftDeleted(rows, no, now), no).None?
    ensures |SoftDeleted(rows, no, now)| == |rows|
  {
    var after := SoftDeleted(rows, no, now);
    forall b | b in after && b.no == no ensures !Visible(b) {
      var j :| 0 <= j < |after| && after[j] == b;
    }
  }

  /** The sweep the service triggers passes no time, so no row can match. */
  lemma ClosingWithoutTimeMissesExpired()
    ensures var b := Board(1, 7, "t", "d", None, 0, false, 2, 3, 0, false, Some(0), 0, None);
      CountExpired([b], None) == 0 && CountExpired([b], Some(KoreaTime(0))) == 1
  {
    var b := Board(1, 7, "t", "d", None, 0, false, 2, 3, 0, false, Some(0), 0, None);
    assert Filter([b], ExpiredAt(None)) == Filter([], ExpiredAt(None));
    assert Filter([b], ExpiredAt(Some(KoreaTime(0)))) == [b] + Filter([], ExpiredAt(Some(KoreaTime(0))));
  }

  // ---------------------------------------------------------------------------
  // Request values
  // ---------------------------------------------------------------------------

  predicate IsDigit(c: char)
  {
    '0' <= c <= '9'
  }

  predicate AllDigits(s: string)
  {
    forall i :: 0 <= i < |s| ==> IsDigit(s[i])
  }

  function DigitsValue(s: string): nat
    requires AllDigits(s)
  {
    if s == [] then 0
    else DigitsValue(s[..|s| - 1]) * 10 + ((s[|s| - 1] as int) - ('0' as int))
  }

  /** `+s` on a query-string value: the empty string is 0, an optional sign followed by
      decimal digits is that number, anything else is NaN (`None`). */
  function ToNumber(s: string): Option<int>
  {
    if s == "" then Some(0)
    else if (s[0] == '-' || s[0] == '+') && |s| > 1 && AllDigits(s[1..]) then
      var v: int := DigitsValue(s[1..]);
      Some(if s[0] == '-' then -v else v)
    else if AllDigits(s) then Some(DigitsValue(s))
    else None
  }

  /** Decimal notation of a number, as a query string carries it. */
  function ShowNat(n: nat): string
  {
    if n < 10 then [('0' as int + n) as char]
    else ShowNat(n / 10) + [('0' as int + n % 10) as char]
  }

  function Show(n: int): string
  {
    if n < 0 then "-" + ShowNat(-n) else ShowNat(n)
  }

  lemma {:induction false} ShowNatParses(n: nat)
    ensures |ShowNat(n)| > 0 && AllDigits(ShowNat(n)) && DigitsValue(ShowNat(n)) == n
  {
    if n >= 10 {
      ShowNatParses(n / 10);
      var s := ShowNat(n);
      assert s[..|s| - 1] == ShowNat(n / 10);
    }
  }

  /** Reading a number back from its decimal notation gives the number. */
  lemma NumberRoundTrip(n: int)
    ensures ToNumber(Show(n)) == Some(n)
  {
    if n < 0 {
      var digits := ShowNat(-n);
      ShowNatParses(-n);
      assert Show(n) == "-" + digits;
      assert Show(n)[1..] == digits;
      assert Show(n)[0] == '-';
    } else {
      var digits := ShowNat(n);
      ShowNatParses(n);
      assert Show(n) == digits;
      assert digits[0] != '-' && digits[0] != '+';
    }
  }

  /** The entries of `m` whose value is not `drop`. */
  function Without<K(!new), V(==)>(m: map<K, V>, drop: V): (r: map<K, V>)
    ensures forall k :: k in r <==> k in m && m[k] != drop
    ensures forall k :: k in r ==> r[k] == m[k]
  {
    map k | k in m && m[k] != drop :: m[k]
  }

  /** The `duplicateCheck` loop: copies every entry of `m` except those equal to `drop`. */
  method KeepAllBut<K(==,!new), V(==)>(m: map<K, V>, drop: V) returns (r: map<K, V>)
    ensures r == Without(m, drop)
  {
    r := map[];
    var pending := m.Keys;
    while pending != {}
      invariant pending <= m.Keys
      invariant forall k :: k in r <==> k in m && k !in pending && m[k] != drop
      invariant forall k :: k in r ==> r[k] == m[k]
      decreases pending
    {
      var k :| k in pending;
      if m[k] != drop {
        r := r[k := m[k]];
      }
      pending := pending - {k};
    }
    assert r.Keys == Without(m, drop).Keys;
  }

  /** Some element of a non-empty set: the next key a `forEach` over the keys visits. */
  method Pick<K>(s: set<K>) returns (k: K)
    requires s != {}
    ensures k in s
  {
    k :| k in s;
  }

  /** The `forEach` over the cached keys that writes one `WHEN no = k THEN v` branch per
      entry: the branches are exactly the cache. */
  method CaseBranches<K, V>(view: map<K, V>) returns (cases: map<K, V>)
    ensures cases == view
  {
    cases := map[];
    var pending := view.Keys;
    while pending != {}
      invariant pending <= view.Keys && cases.Keys <= view.Keys
      invariant forall k :: k in view ==> (k in cases <==> k !in pending)
      invariant forall k :: k in cases ==> cases[k] == view[k]
      decreases pending
    {
      var k := Pick(pending);
      cases := cases[k := view[k]];
      pending := pending - {k};
    }
    assert cases.Keys == view.Keys;
  }

  /** What the service hands the filter query: the request without its `'null'`-valued
      keys, `+date`, the window's far end and the shifted clock. */
  datatype FilterCall = FilterCall(
    conditions: map<string, string>, date: Option<int>, endTime: Option<int>, currentTime: int)

  /** The far end of the deadline window: none when `date` is falsy, `date` days past the
      shifted clock when it is a number, and no valid date otherwise. */
  function WindowEnd(dto: map<string, string>, now: int): (r: Option<int>)
    ensures ("date" !in dto || dto["date"] == "") ==> r.None?
    ensures "date" in dto && dto["date"] != "" && ToNumber(dto["date"]).Some? ==>
      r == Some(KoreaTime(now) + ToNumber(dto["date"]).value * DayMs)
  {
    if "date" !in dto || dto["date"] == "" then None
    else match ToNumber(dto["date"])
      case None => None
      case Some(d) => Some(AddDays(KoreaTime(now), d))
  }

  /** A board the repository returns for the service's request with a numeric, non-zero
      `date` of `d` days has a deadline strictly after the shifted clock and strictly before
      `d` days past it; so a negative `date` selects nothing. */
  lemma {:induction false} DateWindowFromService(dto: map<string, string>, now: int, f: BoardFilter,
                                                 rows: seq<Board>, b: Board)
    requires "date" in dto && ToNumber(dto["date"]).Some? && ToNumber(dto["date"]).value != 0
    requires f.date == ToNumber(dto["date"]) && f.endTime == WindowEnd(dto, now)
    requires f.currentTime == Some(KoreaTime(now))
    requires b in BoardQueries.FilteredBoards(f, rows)
    ensures b.deadline.Some?
    ensures KoreaTime(now) < b.deadline.value < KoreaTime(now) + ToNumber(dto["date"]).value * DayMs
    ensures ToNumber(dto["date"]).value > 0
  {
    DateWindowIsStrict(f, rows, b);
  }

  // ---------------------------------------------------------------------------
  // Create and edit
  // ---------------------------------------------------------------------------

  /** The new board's deadline: none for a falsy `deadline`, else that many days past the
      shifted clock. */
  function EndTimeFrom(deadline: int, now: int): (r: Option<int>)
    ensures r.None? <==> deadline == 0
    ensures r.Some? ==> r.value == KoreaTime(now) + deadline * DayMs
    ensures deadline > 0 ==> r.value > KoreaTime(now)
    ensures deadline < 0 ==> r.value < KoreaTime(now)
  {
    if deadline == 0 then None else Some(AddDays(KoreaTime(now), deadline))
  }

  /** Photos are written unless the upload is the `'logo.png'` placeholder. */
  predicate WantsPhotos(urls: seq<string>)
  {
    |urls| == 0 || urls[0] != "logo.png"
  }

  /** `registBoardPhotos`' mapping: URL `i` becomes photo `i + 1` of board `no`. */
  function BoardPhotos(urls: seq<string>, no: int): (r: seq<Photo>)
    ensures |r| == |urls|
    ensures forall i :: 0 <= i < |urls| ==> r[i] == Photo(urls[i], no, i + 1)
  {
    seq(|urls|, i requires 0 <= i < |urls| => Photo(urls[i], no, i + 1))
  }

  /** `photos.map((p) => p.photo_url)`. */
  function Urls(ps: seq<Photo>): (r: seq<string>)
    ensures |r| == |ps| && forall i :: 0 <= i < |ps| ==> r[i] == ps[i].url
  {
    seq(|ps|, i requires 0 <= i < |ps| => ps[i].url)
  }

  /** Photos registered for a board that had none read back as exactly the uploaded URLs,
      in upload order. */
  lemma PhotosReadBack(existing: seq<Photo>, urls: seq<string>, no: int)
    requires forall p :: p in existing ==> p.board != no
    ensures PhotosOf(existing + BoardPhotos(urls, no), no) == BoardPhotos(urls, no)
    ensures Urls(PhotosOf(existing + BoardPhotos(urls, no), no)) == urls
  {
    var added := BoardPhotos(urls, no);
    NoPhotosOf(existing, no);
    OnlyPhotosOf(added, no);
    FilterConcat(existing, added, OfBoard(no));
    assert [] + added == added;
  }

  lemma NoPhotosOf(ps: seq<Photo>, no: int)
    requires forall p :: p in ps ==> p.board != no
    ensures Filter(ps, OfBoard(no)) == []
  {
    forall i | 0 <= i < |ps| ensures !OfBoard(no)(ps[i]) {
      assert ps[i] in ps;
    }
    FilterExtremes(ps, OfBoard(no));
  }

  lemma OnlyPhotosOf(ps: seq<Photo>, no: int)
    requires forall i :: 0 <= i < |ps| ==> ps[i].board == no
    ensures Filter(ps, OfBoard(no)) == ps
  {
    FilterExtremes(ps, OfBoard(no));
  }

  /** The checks `createBoard` runs, in order: the photo list, the category, the area,
      the board insert, then the photo insert. */
  function CreateRejection(urls: Option<seq<string>>, draft: BoardDraft, categories: set<int>,
                           areas: set<int>, accepted: bool, saved: nat): (r: Option<Error>)
    ensures r.None? <==> (urls.Some? && draft.category in categories && draft.area in areas && accepted
      && (WantsPhotos(urls.value) ==> saved >= |urls.value|))
    ensures urls.None? ==> r == Some(Error(BadRequest, PhotoRequired))
    ensures urls.Some? && draft.category !in categories ==> r == Some(Error(NotFound, CategoryMissing))
    ensures urls.Some? && draft.category in categories && draft.area !in areas ==>
      r == Some(Error(NotFound, AreaMissing))
    ensures urls.Some? && draft.category in categories && draft.area in areas && !accepted ==>
      r == Some(Error(BadGateway, BoardInsertFailed))
    ensures (urls.Some? && draft.category in categories && draft.area in areas && accepted
      && WantsPhotos(urls.value) && saved < |urls.value|) ==>
      r == Some(Error(BadGateway, PhotoInsertFailed))
    ensures r.Some? && r.value.status == BadGateway ==>
      urls.Some? && draft.category in categories && draft.area in areas
  {
    if urls.None? then Some(Error(BadRequest, PhotoRequired))
    else if draft.category !in categories then Some(Error(NotFound, CategoryMissing))
    else if draft.area !in areas then Some(Error(NotFound, AreaMissing))
    else if !accepted then Some(Error(BadGateway, BoardInsertFailed))
    else if WantsPhotos(urls.value) && saved < |urls.value| then Some(Error(BadGateway, PhotoInsertFailed))
    else None
  }

  /** An edit request: the row columns it sets (possibly `null`), the renamed
      `categoryNo`/`areaNo`, and `deadline` as a number of days (0 when absent). */
  datatype UpdateRequest = UpdateRequest(fields: map<Column, Value>, categoryNo: int, areaNo: int, deadline: int)

  /** The request's columns are the plain ones, each `null` or of the column's type. */
  ghost predicate RequestTyped(fields: map<Column, Value>)
  {
    forall c :: c in fields ==>
      c != Category && c != Area && c != Deadline && (fields[c].Null? || Fits(c, fields[c]))
  }

  /** The edit's `SET` clause: the request with its `null` entries dropped, the renamed
      category and area, and the deadline as `createdAt` plus the days, or `null` when no
      days are given. */
  function UpdatePatch(req: UpdateRequest, createdAt: int): (p: map<Column, Value>)
    requires RequestTyped(req.fields)
    ensures WellTyped(p)
  {
    var body := req.fields[Category := Num(req.categoryNo)][Area := Num(req.areaNo)];
    var body := if req.deadline != 0 then body[Deadline := Num(AddDays(createdAt, req.deadline))] else body;
    var kept := Without(body, Null);
    if req.deadline == 0 then kept[Deadline := Null] else kept
  }

  /** What an accepted edit writes: every non-null request column, the category and area,
      the deadline rule; a `null` request column keeps the stored value; the key, author,
      views, state and timestamps never change. */
  lemma EditWritesNonNullOnly(b: Board, req: UpdateRequest)
    requires RequestTyped(req.fields)
    ensures var r := ApplyPatch(b, UpdatePatch(req, b.createdAt));
      && (forall c :: c in req.fields && req.fields[c] != Null ==> Get(r, c) == req.fields[c])
      && (forall c :: c != Category && c != Area && c != Deadline && (c !in req.fields || req.fields[c] == Null) ==>
            Get(r, c) == Get(b, c))
      && Get(r, Category) == Num(req.categoryNo) && Get(r, Area) == Num(req.areaNo)
      && Get(r, Deadline) == (if req.deadline != 0 then Num(b.createdAt + req.deadline * DayMs) else Null)
      && r.no == b.no && r.userNo == b.userNo && r.hit == b.hit && r.isDeadline == b.isDeadline
      && r.createdAt == b.createdAt && r.deletedAt == b.deletedAt
  {
    PatchEntries(req, b.createdAt);
  }

  /** The entries of the edit's `SET` clause, column by column. */
  lemma PatchEntries(req: UpdateRequest, createdAt: int)
    requires RequestTyped(req.fields)
    ensures var p := UpdatePatch(req, createdAt);
      && (forall c :: c in req.fields && req.fields[c] != Null ==> c in p && p[c] == req.fields[c])
      && (forall c :: c != Category && c != Area && c != Deadline && (c !in req.fields || req.fields[c] == Null) ==>
            c !in p)
      && Category in p && p[Category] == Num(req.categoryNo)
      && Area in p && p[Area] == Num(req.areaNo)
      && Deadline in p && p[Deadline] == (if req.deadline != 0 then Num(createdAt + req.deadline * DayMs) else Null)
  {
  }

  /** The edit's period check: a non-zero number of days must put the new deadline,
      counted from the board's creation, after the shifted clock. */
  predicate PeriodAccepted(deadline: int, createdAt: int, now: int)
  {
    deadline != 0 ==> AddDays(createdAt, deadline) > KoreaTime(now)
  }

  /** A negative number of days is accepted when creating (the board then starts with a
      deadline already behind the shifted clock) but refused when editing a board that was
      created no later than that clock. */
  lemma PastDeadlineCreatedNotEdited(req: UpdateRequest, urls: seq<string>, b: Board, now: int,
                                     categories: set<int>, areas: set<int>, saved: nat)
    requires req.deadline < 0 && b.createdAt <= KoreaTime(now)
    ensures EndTimeFrom(req.deadline, now).Some? && EndTimeFrom(req.deadline, now).value < KoreaTime(now)
    ensures UpdateRejection(req, Some(urls), Some(b), b.userNo, now, categories, areas, saved)
      == Some(Error(BadRequest, PeriodRejected))
  {
    assert AddDays(b.createdAt, req.deadline) < b.createdAt;
  }

  /** The checks `updateBoard` runs, in order: the photo list (NotFound here, where create
      says BadRequest), the board, its author, the new period, the category, the area,
      then the photo insert. */
  function UpdateRejection(req: UpdateRequest, urls: Option<seq<string>>, board: Option<Board>, userNo: int,
                           now: int, categories: set<int>, areas: set<int>, saved: nat): (r: Option<Error>)
    ensures r.None? <==> (urls.Some? && board.Some? && board.value.userNo == userNo
      && (req.deadline != 0 ==> AddDays(board.value.createdAt, req.deadline) > KoreaTime(now))
      && req.categoryNo in categories && req.areaNo in areas
      && (WantsPhotos(urls.value) ==> saved >= |urls.value|))
    ensures urls.None? ==> r == Some(Error(NotFound, PhotoRequired))
    ensures urls.Some? && board.None? ==> r == Some(Error(NotFound, BoardMissing))
    ensures urls.Some? && board.Some? && board.value.userNo != userNo ==> r == Some(Error(Unauthorized, NotAuthor))
    ensures (urls.Some? && board.Some? && board.value.userNo == userNo
      && !PeriodAccepted(req.deadline, board.value.createdAt, now)) ==>
      r == Some(Error(BadRequest, PeriodRejected))
    ensures (urls.Some? && board.Some? && board.value.userNo == userNo
      && PeriodAccepted(req.deadline, board.value.createdAt, now) && req.categoryNo !in categories) ==>
      r == Some(Error(NotFound, CategoryMissing))
    ensures (urls.Some? && board.Some? && board.value.userNo == userNo
      && PeriodAccepted(req.deadline, board.value.createdAt, now) && req.categoryNo in categories
      && req.areaNo !in areas) ==>
      r == Some(Error(NotFound, AreaMissing))
    ensures (urls.Some? && board.Some? && board.value.userNo == userNo
      && PeriodAccepted(req.deadline, board.value.createdAt, now) && req.categoryNo in categories
      && req.areaNo in areas && WantsPhotos(urls.value) && saved < |urls.value|) ==>
      r == Some(Error(BadGateway, PhotoInsertFailed))
    ensures r == Some(Error(BadRequest, PeriodRejected)) ==>
      (req.deadline != 0 && board.Some? && AddDays(board.value.createdAt, req.deadline) <= KoreaTime(now))
  {
    if urls.None? then Some(Error(NotFound, PhotoRequired))
    else if board.None? then Some(Error(NotFound, BoardMissing))
    else if board.value.userNo != userNo then Some(Error(Unauthorized, NotAuthor))
    else if req.deadline != 0 && AddDays(board.value.createdAt, req.deadline) <= KoreaTime(now) then
      Some(Error(BadRequest, PeriodRejected))
    else if req.categoryNo !in categories then Some(Error(NotFound, CategoryMissing))
    else if req.areaNo !in areas then Some(Error(NotFound, AreaMissing))
    else if WantsPhotos(urls.value) && saved < |urls.value| then Some(Error(BadGateway, PhotoInsertFailed))
    else None
  }

  /** The table with `patch` applied to row `no`. */
  function Patched(rows: seq<Board>, no: int, patch: map<Column, Value>): (r: seq<Board>)
    requires WellTyped(patch)
    ensures |r| == |rows|
    ensures forall i :: 0 <= i < |rows| ==>
      r[i] == if rows[i].no == no then ApplyPatch(rows[i], patch) else rows[i]
  {
    seq(|rows|, i requires 0 <= i < |rows| =>
      if rows[i].no == no then ApplyPatch(rows[i], patch) else rows[i])
  }

  /** A table that agrees with `Patched` row by row is `Patched`. */
  lemma PatchedIs(before: seq<Board>, after: seq<Board>, no: int, patch: map<Column, Value>)
    requires WellTyped(patch) && |after| == |before|
    requires forall i :: 0 <= i < |before| ==>
      after[i] == if before[i].no == no then ApplyPatch(before[i], patch) else before[i]
    ensures after == Patched(before, no, patch)
  {
  }

  /** What `findOneCategory` answers: category 1 lists every board, any other the
      category's own page. */
  datatype Listing = EveryBoard(boards: seq<Board>) | OneCategory(page: Categories.CategoryPage)

  function CategoryNos(cats: seq<Categories.Category>): set<int>
  {
    set c | c in cats :: c.no
  }

  /** `findOneCategory(no)`: NotFound for an unknown category; category 1 means all boards;
      any other category lists its own boards. The pagination request is not passed on. */
  function FindOneCategory(no: int, cats: seq<Categories.Category>, rows: seq<Board>, areas: set<int>): (r: Result<Listing>)
    ensures r.Err? <==> forall c :: c in cats ==> c.no != no
    ensures r.Err? ==> r.error == Error(NotFound, CategoryMissing)
    ensures r.Ok? && no == 1 ==> r.value == EveryBoard(GetAllBoards(rows, CategoryNos(cats), areas))
    ensures r.Ok? && no != 1 ==>
      (r.value.OneCategory? && forall b :: b in r.value.page.boards <==> b in rows && Categories.OfCategory(no, b))
  {
    match Categories.Lookup(cats, no)
    case None => Err(Error(NotFound, CategoryMissing))
    case Some(_) =>
      if no == 1 then Ok(EveryBoard(GetAllBoards(rows, CategoryNos(cats), areas)))
      else
        var page := Categories.FindOneCategory(cats, rows, no);
        Ok(OneCategory(page.value))
  }

  // ---------------------------------------------------------------------------
  // The service
  // ---------------------------------------------------------------------------

  /** The service's state: the two tables it writes, the cached `dailyView` map, and the
      number of query runners it holds open. */
  class BoardsService {
    const boards: BoardRepository
    const photos: PhotoRepository
    var dailyView: Option<map<int, int>>
    var openRunners: nat

    ghost predicate Valid()
      reads this, boards
    {
      boards.Valid()
    }

    constructor (boards: BoardRepository, photos: PhotoRepository)
      requires boards.Valid()
      ensures Valid() && this.boards == boards && this.photos == photos
      ensures dailyView == None && openRunners == 0
    {
      this.boards := boards;
      this.photos := photos;
      dailyView := None;
      openRunners := 0;
    }

    /** `getBoardHit(no, board)`: records one view of board `no` in the cache and returns
      the count now cached for it. */
    method GetBoardHit(no: int, board: Board) returns (hit: int)
      modifies this
      ensures dailyView == Some(RecordView(CacheOrEmpty(old(dailyView)), no, board.hit))
      ensures hit == ViewedHit(CacheOrEmpty(old(dailyView)), no, board.hit)
      ensures openRunners == old(openRunners)
    {
      var view := CacheOrEmpty(dailyView);
      if no in view && view[no] != 0 {
        view := view[no := view[no] + 1];
      } else {
        view := view[no := board.hit + 1];
      }
      dailyView := Some(view);
      hit := view[no];
    }

    /** `updateHit()`: without a cache, reports 0 and writes nothing. Otherwise it builds
        one `CASE` branch per cached board, drops the cache, then sets each cached board's
        count to its cached value. An empty map leaves `IN ()`, which the store rejects. */
    method UpdateHit() returns (res: Result<nat>)
      requires Valid()
      modifies this, boards
      ensures Valid() && boards.nextNo == old(boards.nextNo) && openRunners == old(openRunners)
      ensures dailyView == None
      ensures old(dailyView).None? ==> res == Ok(0) && boards.rows == old(boards.rows)
      ensures old(dailyView) == Some(map[]) ==>
        res == Err(Error(InternalServerError, HitFlushFailed)) && boards.rows == old(boards.rows)
      ensures old(dailyView).Some? && old(dailyView).value != map[] ==>
        boards.rows == WithHits(old(boards.rows), old(dailyView).value)
        && res == Ok(Count(old(boards.rows), KeyIn(old(dailyView).value)))
    {
      if dailyView.None? {
        return Ok(0);
      }
      var view := dailyView.value;
      var cases := CaseBranches(view);
      dailyView := None;
      if cases == map[] {
        return Err(Error(InternalServerError, HitFlushFailed));
      }
      var affected := boards.SetHits(cases);
      res := Ok(affected);
    }

    /** `filteredBoards(dto)` up to the repository call: the arguments it passes. */
    method FilteredBoards(dto: map<string, string>, now: int) returns (call: FilterCall)
      ensures call.conditions == Without(dto, "null")
      ensures call.date == (if "date" in dto then ToNumber(dto["date"]) else None)
      ensures call.endTime == WindowEnd(dto, now)
      ensures call.currentTime == KoreaTime(now)
    {
      var currentTime := KoreaTime(now);
      var endTime: Option<int>;
      if "date" !in dto || dto["date"] == "" {
        endTime := None;
      } else {
        var days := ToNumber(dto["date"]);
        endTime := if days.Some? then Some(AddDays(KoreaTime(now), days.value)) else None;
      }
      var conditions := KeepAllBut(dto, "null");
      var date := if "date" in dto then ToNumber(dto["date"]) else None;
      call := FilterCall(conditions, date, endTime, currentTime);
    }

    /** `closingBoard()` as written: the repository gets no time, so nothing closes. */
    method ClosingBoardAsWritten() returns (affected: nat)
      requires Valid()
      modifies boards
      ensures Valid() && boards.nextNo == old(boards.nextNo)
      ensures affected == 0 && boards.rows == old(boards.rows)
    {
      SweepWithoutTimeIsNoop(boards.rows);
      affected := boards.ClosingBoard(None);
    }

    /** `closingBoard()` with the shifted clock passed on, as the other deadline checks
        use it: closes every open board whose deadline has passed. */
    method ClosingBoard(now: int) returns (affected: nat)
      requires Valid()
      modifies boards
      ensures Valid() && boards.nextNo == old(boards.nextNo)
      ensures boards.rows == Sweep(old(boards.rows), Some(KoreaTime(now)))
      ensures affected == CountExpired(old(boards.rows), Some(KoreaTime(now)))
    {
      affected := boards.ClosingBoard(Some(KoreaTime(now)));
    }

    /** `boardClosed(no, userNo)`: the author closes an open board; any failed check
        writes nothing. The `!result` guard after the update cannot fire: the lookup
        found the row, and the update matches exactly that one. */
    method BoardClosed(no: int, userNo: int) returns (res: Result<bool>)
      requires Valid()
      modifies boards
      ensures Valid() && boards.nextNo == old(boards.nextNo)
      ensures var why := CloseRejection(FindVisible(old(boards.rows), no), userNo);
        && (why.Some? ==> res == Err(why.value) && boards.rows == old(boards.rows))
        && (why.None? ==> res == Ok(true) && boards.rows == WithFlag(old(boards.rows), no, true))
    {
      var board := FindVisible(boards.rows, no);
      if board.None? {
        return Err(Error(InternalServerError, BoardMissing));
      }
      if board.value.userNo != userNo {
        return Err(Error(Unauthorized, NotAuthor));
      }
      if board.value.isDeadline {
        return Err(Error(BadRequest, AlreadyClosed));
      }
      CountNoUnique(boards.rows, no);
      var affected := boards.BoardClosed(no);
      assert affected == 1;
      assert boards.rows == WithFlag(old(boards.rows), no, true);
      res := Ok(true);
    }

    /** `cancelClosedBoard(no, userNo)`: the author reopens a closed board whose deadline
        has not passed; any failed check writes nothing. */
    method CancelClosedBoard(no: int, userNo: int, now: int) returns (res: Result<bool>)
      requires Valid()
      modifies boards
      ensures Valid() && boards.nextNo == old(boards.nextNo)
      ensures var why := ReopenRejection(FindVisible(old(boards.rows), no), userNo, now);
        && (why.Some? ==> res == Err(why.value) && boards.rows == old(boards.rows))
        && (why.None? ==> res == Ok(true) && boards.rows == WithFlag(old(boards.rows), no, false))
    {
      var board := FindVisible(boards.rows, no);
      if board.None? {
        return Err(Error(InternalServerError, BoardMissing));
      }
      if board.value.userNo != userNo {
        return Err(Error(Unauthorized, NotAuthor));
      }
      var currentTime := KoreaTime(now);
      if board.value.deadline.Some? && board.value.deadline.value <= currentTime {
        return Err(Error(BadRequest, ClosedByTime));
      }
      if !board.value.isDeadline {
        return Err(Error(BadRequest, StillOpen));
      }
      CountNoUnique(boards.rows, no);
      var affected := boards.CancelClosedBoard(no);
      assert affected == 1;
      assert boards.rows == WithFlag(old(boards.rows), no, false);
      res := Ok(true);
    }

    /** `deleteBoard(no, userNo)`: the author soft-deletes a board. The repository returns
        a result object, so the `!result` guard never fires. */
    method DeleteBoard(no: int, userNo: int, now: int) returns (res: Result<bool>)
      requires Valid()
      modifies boards
      ensures Valid() && boards.nextNo == old(boards.nextNo)
      ensures var why := DeleteRejection(FindVisible(old(boards.rows), no), userNo);
        && (why.Some? ==> res == Err(why.value) && boards.rows == old(boards.rows))
        && (why.None? ==> res == Ok(true) && boards.rows == SoftDeleted(old(boards.rows), no, now))
    {
      var board := FindVisible(boards.rows, no);
      if board.None? {
        return Err(Error(InternalServerError, BoardMissing));
      }
      if board.value.userNo != userNo {
        return Err(Error(Unauthorized, NotAuthor));
      }
      var _ := boards.DeleteBoard(no, now);
      assert boards.rows == SoftDeleted(old(boards.rows), no, now);
      res := Ok(true);
    }

    /** `registBoardPhotos(urls, no)`: writes URL `i` as photo `i + 1` of board `no`;
        `saved` is how many rows the store saves. Fewer than requested is an error. */
    method RegistBoardPhotos(urls: seq<string>, no: int, saved: nat) returns (err: Option<Error>)
      modifies photos
      ensures photos.rows == old(photos.rows) + Take(BoardPhotos(urls, no), saved)
      ensures err.None? <==> saved >= |urls|
      ensures err.Some? ==> err.value == Error(BadGateway, PhotoInsertFailed)
    {
      var requested := BoardPhotos(urls, no);
      var stored := photos.CreateBoardPhoto(requested, saved);
      if |requested| != |stored| {
        return Some(Error(BadGateway, PhotoInsertFailed));
      }
      err := None;
    }

    /** `createBoard(draft, user, urls)` in one transaction. `categories` and `areas` are
        the keys the lookups can find, `accepted` whether the store reports the board
        insert, `saved` how many photo rows it saves. Every failure rolls both tables back,
        though a board key handed out by the insert stays used. The query runner is
        released on every path. */
    method CreateBoard(draft: BoardDraft, deadline: int, user: int, urls: Option<seq<string>>,
                       categories: set<int>, areas: set<int>, now: int, accepted: bool, saved: nat)
      returns (res: Result<bool>)
      requires Valid()
      modifies this, boards, photos
      ensures Valid() && openRunners == old(openRunners) && dailyView == old(dailyView)
      ensures var why := CreateRejection(urls, draft, categories, areas, accepted, saved);
        (why.Some? ==> res == Err(why.value)) && (why.None? <==> res.Ok?)
      ensures res.Err? ==> boards.rows == old(boards.rows) && photos.rows == old(photos.rows)
      ensures res.Ok? ==>
        boards.rows == old(boards.rows) + [NewRow(draft, old(boards.nextNo), user, EndTimeFrom(deadline, now), now)]
        && photos.rows == old(photos.rows) + (if WantsPhotos(urls.value) then BoardPhotos(urls.value, old(boards.nextNo)) else [])
      ensures boards.nextNo == old(boards.nextNo) +
        (if urls.Some? && draft.category in categories && draft.area in areas && accepted then 1 else 0)
    {
      openRunners := openRunners + 1;
      var boardsBefore := boards.rows;
      var photosBefore := photos.rows;
      var outcome: Result<bool>;
      if urls.None? {
        outcome := Err(Error(BadRequest, PhotoRequired));
      } else if draft.category !in categories {
        outcome := Err(Error(NotFound, CategoryMissing));
      } else if draft.area !in areas {
        outcome := Err(Error(NotFound, AreaMissing));
      } else {
        var endTime := EndTimeFrom(deadline, now);
        var info := boards.CreateBoard(draft, user, endTime, now, accepted);
        if info.affectedRows == 0 {
          outcome := Err(Error(BadGateway, BoardInsertFailed));
        } else if WantsPhotos(urls.value) {
          var err := RegistBoardPhotos(urls.value, info.insertId, saved);
          outcome := if err.Some? then Err(err.value) else Ok(true);
        } else {
          outcome := Ok(true);
        }
      }
      if outcome.Err? {
        boards.rows := boardsBefore;
        photos.rows := photosBefore;
      }
      openRunners := openRunners - 1;
      res := outcome;
    }

    /** The `duplicateCheck` step of `updateBoard`: the renamed category and area, the
        deadline when days are given, every non-null entry, and a `null` deadline when no
        days are given. */
    method BuildPatch(req: UpdateRequest, createdAt: int) returns (patch: map<Column, Value>)
      requires RequestTyped(req.fields)
      ensures patch == UpdatePatch(req, createdAt)
    {
      var body := req.fields[Category := Num(req.categoryNo)][Area := Num(req.areaNo)];
      if req.deadline != 0 {
        body := body[Deadline := Num(AddDays(createdAt, req.deadline))];
      }
      patch := KeepAllBut(body, Null);
      if req.deadline == 0 {
        patch := patch[Deadline := Null];
      }
    }

    /** `updateBoardPhoto(no, board, urls)`: removes the board's stored photos when it has
        any, then, unless the upload is the placeholder, writes the new ones and returns the
        old URLs. The `!deleteBoardPhoto` guard cannot fire. */
    method UpdateBoardPhoto(no: int, urls: seq<string>, saved: nat) returns (res: Result<Option<seq<string>>>)
      modifies photos
      ensures res.Err? <==> WantsPhotos(urls) && saved < |urls|
      ensures res.Err? ==> res.error == Error(BadGateway, PhotoInsertFailed)
      ensures res.Ok? ==>
        && photos.rows == Filter(old(photos.rows), NotOfBoard(no)) + (if WantsPhotos(urls) then BoardPhotos(urls, no) else [])
        && res.value == (if WantsPhotos(urls) then Some(Urls(PhotosOf(old(photos.rows), no))) else None)
    {
      var before := photos.rows;
      var existing := PhotosOf(photos.rows, no);
      if |existing| > 0 {
        var deleted := photos.DeleteBoardPhoto(no);
        assert deleted != 0;
      } else {
        forall i | 0 <= i < |before| ensures NotOfBoard(no)(before[i]) {
          assert before[i] in before;
        }
        FilterExtremes(before, NotOfBoard(no));
      }
      assert photos.rows == Filter(before, NotOfBoard(no));
      if WantsPhotos(urls) {
        var err := RegistBoardPhotos(urls, no, saved);
        if err.Some? {
          return Err(err.value);
        }
        return Ok(Some(Urls(existing)));
      }
      res := Ok(None);
    }

    /** The writes of `updateBoard` once every check has passed: the row takes the patch,
        then the photos are replaced. The `!updatedBoard` guard cannot fire, since the
        update matches exactly the row the lookup found. */
    method WriteEdit(no: int, patch: map<Column, Value>, urls: seq<string>, saved: nat)
      returns (outcome: Result<Option<seq<string>>>)
      requires Valid() && WellTyped(patch) && FindVisible(boards.rows, no).Some?
      modifies boards, photos
      ensures Valid() && boards.nextNo == old(boards.nextNo)
      ensures boards.rows == Patched(old(boards.rows), no, patch)
      ensures outcome.Err? <==> WantsPhotos(urls) && saved < |urls|
      ensures outcome.Err? ==> outcome.error == Error(BadGateway, PhotoInsertFailed)
      ensures outcome.Ok? ==>
        && photos.rows == Filter(old(photos.rows), NotOfBoard(no)) + (if WantsPhotos(urls) then BoardPhotos(urls, no) else [])
        && outcome.value == (if WantsPhotos(urls) then Some(Urls(PhotosOf(old(photos.rows), no))) else None)
    {
      CountNoUnique(boards.rows, no);
      ghost var before := boards.rows;
      var updated := boards.UpdateBoard(no, patch);
      assert updated == 1;
      PatchedIs(before, boards.rows, no, patch);
      outcome := UpdateBoardPhoto(no, urls, saved);
    }

    /** `updateBoard(no, req, userNo, urls)` in one transaction: the author's edit is
        written, then the photos are replaced as `UpdateBoardPhoto` says. Every failure
        rolls both tables back; the query runner is released on every path. */
    method UpdateBoard(no: int, userNo: int, req: UpdateRequest, urls: Option<seq<string>>,
                       categories: set<int>, areas: set<int>, now: int, saved: nat)
      returns (res: Result<Option<seq<string>>>)
      requires Valid() && RequestTyped(req.fields)
      modifies this, boards, photos
      ensures Valid() && openRunners == old(openRunners) && dailyView == old(dailyView)
      ensures boards.nextNo == old(boards.nextNo)
      ensures var why := UpdateRejection(req, urls, FindVisible(old(boards.rows), no), userNo, now, categories, areas, saved);
        (why.Some? ==> res == Err(why.value)) && (why.None? <==> res.Ok?)
      ensures res.Err? ==> boards.rows == old(boards.rows) && photos.rows == old(photos.rows)
      ensures res.Ok? ==>
        var b := FindVisible(old(boards.rows), no).value;
        && boards.rows == Patched(old(boards.rows), no, UpdatePatch(req, b.createdAt))
        && photos.rows == Filter(old(photos.rows), NotOfBoard(no))
                          + (if WantsPhotos(urls.value) then BoardPhotos(urls.value, no) else [])
        && res.value == (if WantsPhotos(urls.value) then Some(Urls(PhotosOf(old(photos.rows), no))) else None)
    {
      openRunners := openRunners + 1;
      var boardsBefore := boards.rows;
      var photosBefore := photos.rows;
      var outcome: Result<Option<seq<string>>>;
      var board := FindVisible(boards.rows, no);
      if urls.None? {
        outcome := Err(Error(NotFound, PhotoRequired));
      } else if board.None? {
        outcome := Err(Error(NotFound, BoardMissing));
      } else if board.value.userNo != userNo {
        outcome := Err(Error(Unauthorized, NotAuthor));
      } else if req.deadline != 0 && AddDays(board.value.createdAt, req.deadline) <= KoreaTime(now) {
        outcome := Err(Error(BadRequest, PeriodRejected));
      } else {
        var patch := BuildPatch(req, board.value.createdAt);
        if req.categoryNo !in categories {
          outcome := Err(Error(NotFound, CategoryMissing));
        } else if req.areaNo !in areas {
          outcome := Err(Error(NotFound, AreaMissing));
        } else {
          outcome := WriteEdit(no, patch, urls.value, saved);
        }
      }
      if outcome.Err? {
        boards.rows := boardsBefore;
        photos.rows := photosBefore;
      }
      openRunners := openRunners - 1;
      res := outcome;
    }
  }
}

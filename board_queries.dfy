/** The read side of the board repository: the filter/rank query, the title search, the full
    listing and the hot-board selection, each a function from the table to the rows it returns. */
module BoardQueries {
  import opened Common
  import opened Sql
  import opened Boards

  datatype Direction = Asc | Desc

  /** The twelve parameters of `filteredBoards`, in its own signature's terms. A `None`
      stands for `undefined`, `null` or `NaN`. */
  datatype BoardFilter = BoardFilter(
    categoryNo: Option<int>,
    sort: Option<Direction>,
    title: Option<string>,
    popular: Option<string>,
    areaNo: Option<int>,
    max: Option<int>,
    min: Option<int>,
    target: Option<bool>,
    date: Option<int>,
    endTime: Option<int>,
    currentTime: Option<int>,
    free: Option<string>)

  /** JavaScript truthiness of a number and of a string parameter. */
  predicate NumTruthy(o: Option<int>) { o.Some? && o.value != 0 }
  predicate TextTruthy(o: Option<string>) { o.Some? && o.value != "" }

  /** `LIKE '%sub%'`: `sub` occurs somewhere in `s`. */
  predicate Contains(s: string, sub: string)
  {
    exists i :: 0 <= i <= |s| && sub <= s[i..]
  }

  /** `a < b` in SQL: unknown, hence not selected, when either side is NULL. */
  predicate Before(a: Option<int>, b: Option<int>)
  {
    a.Some? && b.Some? && a.value < b.value
  }

  /** The WHERE clause `filteredBoards` builds: each truthy parameter adds one conjunct.
      `target` constrains only when it is `true`; `date === NaN` never holds, so no
      `deadline is null` conjunct is ever added. */
  predicate Matches(f: BoardFilter, b: Board)
  {
    && Visible(b)
    && (NumTruthy(f.categoryNo) ==> b.category == f.categoryNo.value)
    && (TextTruthy(f.title) ==> Contains(b.title, f.title.value))
    && (NumTruthy(f.areaNo) ==> b.area == f.areaNo.value)
    && (NumTruthy(f.max) ==> b.price < f.max.value)
    && (NumTruthy(f.min) ==> b.price >= f.min.value)
    && (f.target == Some(true) ==> b.target)
    && (NumTruthy(f.date) ==> Before(b.deadline, f.endTime) && Before(f.currentTime, b.deadline))
    && (TextTruthy(f.free) ==> b.price == 0)
  }

  function MatchesFilter(f: BoardFilter): Board -> bool
  {
    (b: Board) => Matches(f, b)
  }

  /** The ORDER BY as a descending key: `no` in the `sort` direction (ascending when absent),
      replaced by `hit DESC` when `popular` is truthy. */
  function OrderKey(f: BoardFilter): Board -> int
  {
    if TextTruthy(f.popular) then (b: Board) => b.hit
    else if f.sort == Some(Desc) then (b: Board) => b.no
    else (b: Board) => -b.no
  }

  /** `filteredBoards(...)`: exactly the visible rows meeting every supplied constraint,
      in the requested order. */
  function FilteredBoards(f: BoardFilter, rows: seq<Board>): (r: seq<Board>)
    ensures forall b :: b in r <==> b in rows && Matches(f, b)
    ensures SortedBy(r, OrderKey(f))
    ensures multiset(r) == multiset(Filter(rows, MatchesFilter(f)))
  {
    SortByKey(Filter(rows, MatchesFilter(f)), OrderKey(f))
  }

  /** `free` and a positive `min` narrow each other to nothing. */
  lemma FreeWithMinIsEmpty(f: BoardFilter, rows: seq<Board>)
    requires TextTruthy(f.free) && NumTruthy(f.min) && f.min.value > 0
    ensures FilteredBoards(f, rows) == []
  {
    var r := FilteredBoards(f, rows);
    assert forall b :: b in r ==> b.price == 0 && b.price >= f.min.value;
  }

  /** With a truthy `date`, every row returned has a deadline strictly inside
      (currentTime, endTime); a null deadline or a null bound selects nothing. */
  lemma DateWindowIsStrict(f: BoardFilter, rows: seq<Board>, b: Board)
    requires NumTruthy(f.date)
    requires b in FilteredBoards(f, rows)
    ensures b.deadline.Some? && f.currentTime.Some? && f.endTime.Some?
    ensures f.currentTime.value < b.deadline.value < f.endTime.value
  {
  }

  /** Rows with a deadline are returned when `date` is NaN: the `deadline is null`
      branch never applies. */
  lemma NaNDateKeepsDeadlines()
    ensures var b := Board(1, 7, "t", "d", None, 0, false, 2, 3, 0, false, Some(100), 0, None);
      FilteredBoards(NoFilter(), [b]) == [b]
  {
    var b := Board(1, 7, "t", "d", None, 0, false, 2, 3, 0, false, Some(100), 0, None);
    assert Matches(NoFilter(), b);
    assert Filter([b], MatchesFilter(NoFilter())) == [b] + Filter([], MatchesFilter(NoFilter()));
  }

  /** Every parameter absent: `date` is NaN, as `+undefined` makes it. */
  function NoFilter(): BoardFilter
  {
    BoardFilter(None, None, None, None, None, None, None, None, None, None, None, None)
  }

  /** The filter the `date === NaN` test evidently meant (`Number.isNaN(date)`): a NaN
      date selects only boards without a deadline. */
  predicate MatchesIntended(f: BoardFilter, b: Board)
  {
    Matches(f, b) && (f.date.None? ==> b.deadline.None?)
  }

  function MatchesIntendedFilter(f: BoardFilter): Board -> bool
  {
    (b: Board) => MatchesIntended(f, b)
  }

  /** `filteredBoards` with the NaN test written as intended. */
  function FilteredBoardsIntended(f: BoardFilter, rows: seq<Board>): (r: seq<Board>)
    ensures forall b :: b in r <==> b in rows && MatchesIntended(f, b)
    ensures SortedBy(r, OrderKey(f))
    ensures multiset(r) == multiset(Filter(rows, MatchesIntendedFilter(f)))
  {
    SortByKey(Filter(rows, MatchesIntendedFilter(f)), OrderKey(f))
  }

  /** With the intended test the two date branches are exclusive: a NaN date returns only
      open-ended boards, a truthy date only boards whose deadline is inside the window. */
  lemma IntendedDateBranches(f: BoardFilter, rows: seq<Board>, b: Board)
    requires b in FilteredBoardsIntended(f, rows)
    ensures f.date.None? ==> b.deadline.None?
    ensures NumTruthy(f.date) ==> Before(f.currentTime, b.deadline) && Before(b.deadline, f.endTime)
    ensures b in FilteredBoards(f, rows)
  {
  }

  function ByNoDesc(): Board -> int
  {
    (b: Board) => b.no
  }

  predicate TitleHit(title: string, b: Board)
  {
    Visible(b) && Contains(b.title, title)
  }

  function TitleContains(title: string): Board -> bool
  {
    (b: Board) => TitleHit(title, b)
  }

  /** `searchAllBoards(title)`: the visible rows whose title contains `title`, newest first. */
  function SearchAllBoards(title: string, rows: seq<Board>): (r: seq<Board>)
    ensures forall b :: b in r <==> b in rows && TitleHit(title, b)
    ensures SortedBy(r, ByNoDesc())
    ensures multiset(r) == multiset(Filter(rows, TitleContains(title)))
  {
    SortByKey(Filter(rows, TitleContains(title)), ByNoDesc())
  }

  /** The inner joins: the board's area and category rows exist. */
  predicate ListedRow(categories: set<int>, areas: set<int>, b: Board)
  {
    Visible(b) && b.area in areas && b.category in categories
  }

  function Listed(categories: set<int>, areas: set<int>): Board -> bool
  {
    (b: Board) => ListedRow(categories, areas, b)
  }

  /** `getAllBoards()`: every visible row whose area and category exist, newest first. */
  function GetAllBoards(rows: seq<Board>, categories: set<int>, areas: set<int>): (r: seq<Board>)
    ensures forall b :: b in r <==> b in rows && ListedRow(categories, areas, b)
    ensures SortedBy(r, ByNoDesc())
    ensures multiset(r) == multiset(Filter(rows, Listed(categories, areas)))
  {
    SortByKey(Filter(rows, Listed(categories, areas)), ByNoDesc())
  }

  /** The `select` filter of the hot-board query: 1 keeps open boards, 2 closed ones,
      anything else keeps both. */
  predicate HotCandidate(select: int, b: Board)
  {
    Visible(b) && (select == 1 ==> !b.isDeadline) && (select == 2 ==> b.isDeadline)
  }

  function HotCandidateFilter(select: int): Board -> bool
  {
    (b: Board) => HotCandidate(select, b)
  }

  /** `readHotBoards(select, ...)`, given the query's rows already in its ranking order
      (the joined rows, one per like of a liked board): the first three candidates of the
      requested kind. */
  function ReadHotBoards(select: int, ranked: seq<Board>): (r: seq<Board>)
    ensures |r| <= 3 && |r| <= |Filter(ranked, HotCandidateFilter(select))|
    ensures forall b :: b in r ==> b in ranked && Visible(b)
    ensures select == 1 ==> forall b :: b in r ==> !b.isDeadline
    ensures select == 2 ==> forall b :: b in r ==> b.isDeadline
    ensures r == Filter(ranked, HotCandidateFilter(select))[..|r|]
    ensures |r| == 3 || r == Filter(ranked, HotCandidateFilter(select))
  {
    Take(Filter(ranked, HotCandidateFilter(select)), 3)
  }

  /** Sorted by key and free of repeated keys: strictly newest first. */
  lemma NewestFirst(r: seq<Board>)
    requires SortedBy(r, ByNoDesc()) && UniqueNos(r)
    ensures forall i, j :: 0 <= i < j < |r| ==> r[i].no > r[j].no
  {
    forall i, j | 0 <= i < j < |r| ensures r[i].no > r[j].no {
      assert ByNoDesc()(r[i]) >= ByNoDesc()(r[j]);
    }
  }

  /** With one row per key, each listing names each board once, in strictly decreasing `no`;
      so does `filteredBoards` with `sort = DESC` and no `popular` override. */
  lemma ListingsNewestFirstOnce(rows: seq<Board>, title: string, categories: set<int>, areas: set<int>, f: BoardFilter)
    requires UniqueNos(rows)
    ensures var r := SearchAllBoards(title, rows); forall i, j :: 0 <= i < j < |r| ==> r[i].no > r[j].no
    ensures var r := GetAllBoards(rows, categories, areas); forall i, j :: 0 <= i < j < |r| ==> r[i].no > r[j].no
    ensures f.sort == Some(Desc) && !TextTruthy(f.popular) ==>
      var r := FilteredBoards(f, rows); forall i, j :: 0 <= i < j < |r| ==> r[i].no > r[j].no
  {
    var s := SearchAllBoards(title, rows);
    UniqueNosSub(s, rows);
    NewestFirst(s);
    var g := GetAllBoards(rows, categories, areas);
    UniqueNosSub(g, rows);
    NewestFirst(g);
    if f.sort == Some(Desc) && !TextTruthy(f.popular) {
      var r := FilteredBoards(f, rows);
      UniqueNosSub(r, rows);
      assert OrderKey(f) == ByNoDesc();
      NewestFirst(r);
    }
  }
}

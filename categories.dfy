/** The category repository's listings: the hot categories, the three-slot lookup, one
    category's boards and every category with its boards. */
module Categories {
  import opened Common
  import opened Sql
  import opened Boards

  /** One row of the `categories` table; `hit` counts how often it is chosen. */
  datatype Category = Category(no: int, name: string, hit: int)

  /** `findOneCategory`'s answer: the category's name and its boards. */
  datatype CategoryPage = CategoryPage(categoryName: string, boards: seq<Board>)

  /** One category of `findAllCategory` together with the boards joined to it. */
  datatype CategoryBoards = CategoryBoards(category: Category, boards: seq<Board>)

  function IsHot(): Category -> bool
  {
    (c: Category) => c.hit > 0
  }

  function ByHit(): Category -> int
  {
    (c: Category) => c.hit
  }

  /** The hot-category candidates in `hit DESC` order. */
  function HotRanking(cats: seq<Category>): (r: seq<Category>)
    ensures SortedBy(r, ByHit())
    ensures forall c :: c in r <==> c in cats && c.hit > 0
  {
    SortByKey(Filter(cats, IsHot()), ByHit())
  }

  /** `readHotCategories()`: `WHERE hit > 0 ORDER BY hit DESC LIMIT 3`. */
  function ReadHotCategories(cats: seq<Category>): (r: seq<Category>)
    ensures |r| <= 3
    ensures forall c :: c in r ==> c in cats && c.hit > 0
    ensures SortedBy(r, ByHit())
    ensures |r| <= |HotRanking(cats)| && r == HotRanking(cats)[..|r|]
    ensures |HotRanking(cats)| <= 3 ==> r == HotRanking(cats)
    ensures |r| == 3 || r == HotRanking(cats)
  {
    var ranked := HotRanking(cats);
    var r := Take(ranked, 3);
    SortedPrefix(ranked, ByHit(), |r|);
    assert forall c :: c in r ==> c in ranked by {
      forall c | c in r ensures c in ranked {
        var i :| 0 <= i < |r| && r[i] == c;
        assert ranked[i] == c;
      }
    }
    r
  }

  /** No category left out of the hot list ranks above one in it. */
  lemma HotCategoriesAreTop(cats: seq<Category>, c: Category, d: Category)
    requires c in ReadHotCategories(cats)
    requires d in cats && d.hit > 0 && d !in ReadHotCategories(cats)
    ensures c.hit >= d.hit
  {
    var ranked := HotRanking(cats);
    var r := ReadHotCategories(cats);
    assert ranked == r + ranked[|r|..];
    assert d in ranked;
    assert d in ranked[|r|..];
    PrefixDominates(ranked, ByHit(), |r|, c, d);
  }

  /** `getOne()` on `WHERE no = :no`: the first row with that key, if any. */
  function Lookup(cats: seq<Category>, no: int): (r: Option<Category>)
    ensures r.Some? ==> r.value in cats && r.value.no == no
    ensures r.None? <==> forall c :: c in cats ==> c.no != no
  {
    if cats == [] then None
    else if cats[0].no == no then Some(cats[0])
    else
      assert cats == [cats[0]] + cats[1..];
      Lookup(cats[1..], no)
  }

  /** `selectCategory(ids)`: three lookups, of `ids[0]`, `ids[1]` and `ids[2]`; a missing
      position is `undefined`, which matches no row. */
  function SelectCategory(cats: seq<Category>, ids: seq<int>): (r: seq<Option<Category>>)
    ensures |r| == 3
    ensures forall i :: 0 <= i < 3 ==> (r[i].Some? <==> i < |ids| && exists c :: c in cats && c.no == ids[i])
    ensures forall i :: 0 <= i < 3 && r[i].Some? ==> r[i].value in cats && r[i].value.no == ids[i]
  {
    [Slot(cats, ids, 0), Slot(cats, ids, 1), Slot(cats, ids, 2)]
  }

  function Slot(cats: seq<Category>, ids: seq<int>, i: nat): Option<Category>
  {
    if i < |ids| then Lookup(cats, ids[i]) else None
  }

  predicate OfCategory(no: int, b: Board)
  {
    Visible(b) && b.category == no
  }

  function InCategory(no: int): Board -> bool
  {
    (b: Board) => OfCategory(no, b)
  }

  function ByNo(): Board -> int
  {
    (b: Board) => b.no
  }

  /** `findOneCategory(no)`: the category's name and its boards, one row per board, newest
      first. A missing category leaves nothing to destructure, which surfaces as a server
      error. */
  function FindOneCategory(cats: seq<Category>, rows: seq<Board>, no: int): (r: Result<CategoryPage>)
    ensures r.Err? <==> forall c :: c in cats ==> c.no != no
    ensures r.Err? ==> r.error == Error(InternalServerError, CategoryQueryFailed)
    ensures r.Ok? ==> exists c :: c in cats && c.no == no && c.name == r.value.categoryName
    ensures r.Ok? ==> forall b :: b in r.value.boards <==> b in rows && OfCategory(no, b)
    ensures r.Ok? ==> SortedBy(r.value.boards, ByNo())
  {
    match Lookup(cats, no)
    case None => Err(Error(InternalServerError, CategoryQueryFailed))
    case Some(c) => Ok(CategoryPage(c.name, SortByKey(Filter(rows, InCategory(no)), ByNo())))
  }

  /** With one row per key the page lists each board once, in strictly decreasing `no`. */
  lemma CategoryPageNewestFirstOnce(cats: seq<Category>, rows: seq<Board>, no: int)
    requires UniqueNos(rows)
    requires FindOneCategory(cats, rows, no).Ok?
    ensures var bs := FindOneCategory(cats, rows, no).value.boards;
      forall i, j :: 0 <= i < j < |bs| ==> bs[i].no > bs[j].no
  {
    var bs := FindOneCategory(cats, rows, no).value.boards;
    assert bs == SortByKey(Filter(rows, InCategory(no)), ByNo());
    UniqueNosSub(bs, rows);
    forall i, j | 0 <= i < j < |bs| ensures bs[i].no > bs[j].no {
      assert ByNo()(bs[i]) >= ByNo()(bs[j]);
    }
  }

  /** `findAllCategory()`: the inner join of categories with their boards; a category
      without boards does not appear. */
  function FindAllCategory(cats: seq<Category>, rows: seq<Board>): (r: seq<CategoryBoards>)
    ensures forall e :: e in r ==> e.category in cats && e.boards != []
    ensures forall e :: e in r ==> forall b :: b in e.boards <==> b in rows && OfCategory(e.category.no, b)
  {
    if cats == [] then []
    else
      assert cats == [cats[0]] + cats[1..];
      var boards := Filter(rows, InCategory(cats[0].no));
      var rest := FindAllCategory(cats[1..], rows);
      if boards == [] then rest
      else [CategoryBoards(cats[0], boards)] + rest
  }

  /** Every category that has a live board appears in `findAllCategory`. */
  lemma {:induction false} FindAllCategoryCovers(cats: seq<Category>, rows: seq<Board>, c: Category, b: Board)
    requires c in cats && b in rows && OfCategory(c.no, b)
    ensures exists e :: e in FindAllCategory(cats, rows) && e.category == c
  {
    var boards := Filter(rows, InCategory(cats[0].no));
    var r := FindAllCategory(cats, rows);
    if c == cats[0] {
      assert b in boards;
      assert r[0] == CategoryBoards(cats[0], boards);
    } else {
      assert cats == [cats[0]] + cats[1..];
      FindAllCategoryCovers(cats[1..], rows, c, b);
      var e :| e in FindAllCategory(cats[1..], rows) && e.category == c;
      assert e in r;
    }
  }
}

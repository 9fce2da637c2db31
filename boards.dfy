/** The board aggregate's rows: the `boards` table, the `board_photos` table, and the
    column-by-column patch an edit writes. */
module Boards {
  import opened Common
  import opened Sql

  /** One row of the `boards` table. Times are milliseconds; `deadline` and `deletedAt`
      are nullable columns. */
  datatype Board = Board(
    no: int,
    userNo: int,
    title: string,
    description: string,
    summary: Option<string>,
    price: int,
    target: bool,
    category: int,
    area: int,
    hit: int,
    isDeadline: bool,
    deadline: Option<int>,
    createdAt: int,
    deletedAt: Option<int>)

  /** One row of the photo table: the URL, the board it belongs to, its 1-based position. */
  datatype Photo = Photo(url: string, board: int, order: int)

  /** Select queries leave out soft-deleted rows. */
  predicate Visible(b: Board)
  {
    b.deletedAt.None?
  }

  /** The primary key is unique. */
  ghost predicate UniqueNos(rows: seq<Board>)
  {
    forall i, j :: 0 <= i < j < |rows| ==> rows[i].no != rows[j].no
  }

  /** A table with unique keys holds each row at most once. */
  lemma {:induction false} UniqueNosAtMostOnce(rows: seq<Board>, x: Board)
    requires UniqueNos(rows)
    ensures multiset(rows)[x] <= 1
  {
    if rows != [] {
      assert rows == [rows[0]] + rows[1..];
      assert UniqueNos(rows[1..]) by {
        forall i, j | 0 <= i < j < |rows[1..]| ensures rows[1..][i].no != rows[1..][j].no {
          assert rows[1..][i] == rows[i + 1] && rows[1..][j] == rows[j + 1];
        }
      }
      UniqueNosAtMostOnce(rows[1..], x);
      if rows[0] == x {
        assert x !in rows[1..] by {
          forall k | 0 <= k < |rows[1..]| ensures rows[1..][k] != x {
            assert rows[1..][k] == rows[k + 1];
          }
        }
      }
    }
  }

  /** A row found at two positions occurs at least twice. */
  lemma TwiceMeansTwo<T>(s: seq<T>, i: int, j: int)
    requires 0 <= i < j < |s| && s[i] == s[j]
    ensures multiset(s)[s[i]] >= 2
  {
    assert s == s[..j] + [s[j]] + s[j + 1..];
    assert s[i] in s[..j];
  }

  /** Any selection of rows from a table with unique keys has unique keys: a query
      returns each board at most once. */
  lemma UniqueNosSub(r: seq<Board>, rows: seq<Board>)
    requires multiset(r) <= multiset(rows) && UniqueNos(rows)
    ensures UniqueNos(r)
  {
    forall i, j | 0 <= i < j < |r| ensures r[i].no != r[j].no {
      if r[i].no == r[j].no {
        if r[i] == r[j] {
          TwiceMeansTwo(r, i, j);
          UniqueNosAtMostOnce(rows, r[i]);
          assert false;
        } else {
          assert r[i] in multiset(r) && r[j] in multiset(r);
          assert r[i] in rows && r[j] in rows;
          var k :| 0 <= k < |rows| && rows[k] == r[i];
          assert false;
        }
      }
    }
  }

  /** The lookup every flow starts with: the visible row whose key is `no`, if any. */
  function FindVisible(rows: seq<Board>, no: int): (r: Option<Board>)
    ensures r.Some? ==> r.value in rows && r.value.no == no && Visible(r.value)
    ensures r.None? <==> forall b :: b in rows && b.no == no ==> !Visible(b)
  {
    if rows == [] then None
    else if rows[0].no == no && Visible(rows[0]) then Some(rows[0])
    else
      assert rows == [rows[0]] + rows[1..];
      FindVisible(rows[1..], no)
  }

  function OfBoard(no: int): Photo -> bool
  {
    (p: Photo) => p.board == no
  }

  function NotOfBoard(no: int): Photo -> bool
  {
    (p: Photo) => p.board != no
  }

  /** The photos stored for board `no`, in table order. */
  function PhotosOf(photos: seq<Photo>, no: int): (r: seq<Photo>)
    ensures forall p :: p in r <==> p in photos && p.board == no
  {
    Filter(photos, OfBoard(no))
  }

  /** The columns an edit may write; `category` and `area` are the renamed
      `categoryNo` and `areaNo` of the request. */
  datatype Column = Price | Title | Description | Summary | Target | Category | Area | Deadline

  /** A request value: JSON `null`, a number, a string or a boolean. */
  datatype Value = Null | Num(n: int) | Text(s: string) | Flag(b: bool)

  /** The value suits the column's type; only `summary` and `deadline` are nullable. */
  predicate Fits(c: Column, v: Value)
  {
    match c
    case Price => v.Num?
    case Title => v.Text?
    case Description => v.Text?
    case Summary => v.Text? || v.Null?
    case Target => v.Flag?
    case Category => v.Num?
    case Area => v.Num?
    case Deadline => v.Num? || v.Null?
  }

  ghost predicate WellTyped(patch: map<Column, Value>)
  {
    forall c :: c in patch ==> Fits(c, patch[c])
  }

  /** Column `c` of row `b`, as a request value. */
  function Get(b: Board, c: Column): Value
  {
    match c
    case Price => Num(b.price)
    case Title => Text(b.title)
    case Description => Text(b.description)
    case Summary => if b.summary.Some? then Text(b.summary.value) else Null
    case Target => Flag(b.target)
    case Category => Num(b.category)
    case Area => Num(b.area)
    case Deadline => if b.deadline.Some? then Num(b.deadline.value) else Null
  }

  /** `UPDATE boards SET <patch>`: each column named in the patch takes the patch's value,
      every other column (and every column outside `Column`) keeps its value. */
  function ApplyPatch(b: Board, patch: map<Column, Value>): (r: Board)
    requires WellTyped(patch)
    ensures forall c :: Get(r, c) == if c in patch then patch[c] else Get(b, c)
    ensures r.no == b.no && r.userNo == b.userNo && r.hit == b.hit
    ensures r.isDeadline == b.isDeadline && r.createdAt == b.createdAt && r.deletedAt == b.deletedAt
  {
    var r := b.(
      price := NumOr(patch, Price, b.price),
      title := TextOr(patch, Title, b.title),
      description := TextOr(patch, Description, b.description),
      summary := if Summary in patch then TextOption(patch[Summary]) else b.summary,
      target := if Target in patch && patch[Target].Flag? then patch[Target].b else b.target,
      category := NumOr(patch, Category, b.category),
      area := NumOr(patch, Area, b.area),
      deadline := if Deadline in patch then NumOption(patch[Deadline]) else b.deadline);
    assert forall c :: Get(r, c) == if c in patch then patch[c] else Get(b, c) by {
      forall c ensures Get(r, c) == if c in patch then patch[c] else Get(b, c) {
        if c in patch {
          assert Fits(c, patch[c]);
        }
      }
    }
    r
  }

  function NumOr(patch: map<Column, Value>, c: Column, otherwise: int): int
  {
    if c in patch && patch[c].Num? then patch[c].n else otherwise
  }

  function TextOr(patch: map<Column, Value>, c: Column, otherwise: string): string
  {
    if c in patch && patch[c].Text? then patch[c].s else otherwise
  }

  function TextOption(v: Value): Option<string>
  {
    if v.Text? then Some(v.s) else None
  }

  function NumOption(v: Value): Option<int>
  {
    if v.Num? then Some(v.n) else None
  }
}

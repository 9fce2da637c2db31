/** The write side of the board repository: the UPDATE and INSERT statements it issues
    against the `boards` table, run here as scans over the table's rows. */
module BoardRepo {
  import opened Common
  import opened Sql
  import opened Boards

  /** What an INSERT reports: affected rows and the generated key. */
  datatype InsertInfo = InsertInfo(affectedRows: nat, insertId: int)

  /** The columns the create request supplies for a new row. */
  datatype BoardDraft = BoardDraft(
    title: string, description: string, summary: Option<string>,
    price: int, target: bool, category: int, area: int)

  /** The deadline sweep's WHERE clause: `deadline is not null AND deadline <= :currentTime
      AND isDeadline = false`. A NULL parameter makes the comparison unknown, so no row matches. */
  predicate Expired(b: Board, currentTime: Option<int>)
  {
    b.deadline.Some? && currentTime.Some? && b.deadline.value <= currentTime.value && !b.isDeadline
  }

  function ExpiredAt(currentTime: Option<int>): Board -> bool
  {
    (b: Board) => Expired(b, currentTime)
  }

  function HasNo(no: int): Board -> bool
  {
    (b: Board) => b.no == no
  }

  function KeyIn(hits: map<int, int>): Board -> bool
  {
    (b: Board) => b.no in hits
  }

  /** A row after the sweep. */
  function Swept(b: Board, currentTime: Option<int>): Board
  {
    if Expired(b, currentTime) then b.(isDeadline := true) else b
  }

  /** The number of rows the sweep affects. */
  function CountExpired(rows: seq<Board>, currentTime: Option<int>): nat
  {
    Count(rows, ExpiredAt(currentTime))
  }

  /** The table after a sweep at `currentTime`. */
  function Sweep(rows: seq<Board>, currentTime: Option<int>): (r: seq<Board>)
    ensures |r| == |rows|
    ensures forall i :: 0 <= i < |rows| ==> r[i] == Swept(rows[i], currentTime)
  {
    seq(|rows|, i requires 0 <= i < |rows| => Swept(rows[i], currentTime))
  }

  /** A table that agrees with the sweep row by row is the sweep. */
  lemma SweepIs(before: seq<Board>, after: seq<Board>, currentTime: Option<int>)
    requires |after| == |before|
    requires forall i :: 0 <= i < |before| ==> after[i] == Swept(before[i], currentTime)
    ensures after == Sweep(before, currentTime)
  {
  }

  /** The number of rows `WHERE no = :no` matches. */
  function CountNo(rows: seq<Board>, no: int): nat
  {
    Count(rows, HasNo(no))
  }

  /** The sweep is idempotent: once it has run at `t`, running it again at `t`
      matches no row and changes nothing. */
  lemma SweepIdempotent(rows: seq<Board>, t: Option<int>)
    ensures CountExpired(Sweep(rows, t), t) == 0
    ensures Sweep(Sweep(rows, t), t) == Sweep(rows, t)
  {
    var once := Sweep(rows, t);
    FilterExtremes(once, ExpiredAt(t));
  }

  /** After a sweep at `t`, no row is both open and past a deadline `<= t`; the rows the sweep
      closed are exactly the open rows whose deadline had passed, and a row's other columns
      are untouched. */
  lemma SweepExact(rows: seq<Board>, t: int, i: int)
    requires 0 <= i < |rows|
    ensures var after := Sweep(rows, Some(t))[i];
      && (after.isDeadline <==> rows[i].isDeadline || (rows[i].deadline.Some? && rows[i].deadline.value <= t))
      && after == rows[i].(isDeadline := after.isDeadline)
  {
  }

  /** With a NULL time parameter the sweep selects no row: the table is unchanged. */
  lemma {:induction false} SweepWithoutTimeIsNoop(rows: seq<Board>)
    ensures CountExpired(rows, None) == 0
    ensures Sweep(rows, None) == rows
  {
    FilterExtremes(rows, ExpiredAt(None));
  }

  /** A table with unique keys has at most one row per key, and exactly one
      when some row carries it. */
  lemma {:induction false} CountNoUnique(rows: seq<Board>, no: int)
    requires UniqueNos(rows)
    ensures CountNo(rows, no) <= 1
    ensures CountNo(rows, no) == 1 <==> exists b :: b in rows && b.no == no
  {
    if rows != [] {
      assert rows == [rows[0]] + rows[1..];
      FilterConcat([rows[0]], rows[1..], HasNo(no));
      assert UniqueNos(rows[1..]) by {
        forall i, j | 0 <= i < j < |rows[1..]| ensures rows[1..][i].no != rows[1..][j].no {
          assert rows[1..][i] == rows[i + 1] && rows[1..][j] == rows[j + 1];
        }
      }
      CountNoUnique(rows[1..], no);
      if rows[0].no == no {
        assert Filter([rows[0]], HasNo(no)) == [rows[0]] + Filter([], HasNo(no));
        forall b | b in rows[1..] ensures b.no != no {
          var j :| 0 <= j < |rows[1..]| && rows[1..][j] == b;
          assert rows[j + 1] == b;
        }
      } else {
        assert Filter([rows[0]], HasNo(no)) == [] + Filter([], HasNo(no));
      }
    }
  }

  /** The `boards` table and its AUTO_INCREMENT counter. */
  /** Rewriting rows in place without touching their keys keeps the keys unique and below
      the counter. */
  lemma SameKeys(before: seq<Board>, after: seq<Board>, nextNo: int)
    requires |before| == |after| && forall j :: 0 <= j < |after| ==> after[j].no == before[j].no
    requires UniqueNos(before) && forall b :: b in before ==> b.no < nextNo
    ensures UniqueNos(after) && forall b :: b in after ==> b.no < nextNo
  {
    forall b | b in after ensures b.no < nextNo {
      var j :| 0 <= j < |after| && after[j] == b;
      assert before[j] in before;
    }
  }

  class BoardRepository {
    var rows: seq<Board>
    var nextNo: int

    ghost predicate Valid()
      reads this
    {
      UniqueNos(rows) && forall b :: b in rows ==> b.no < nextNo
    }

    constructor ()
      ensures Valid() && rows == [] && nextNo == 1
    {
      rows := [];
      nextNo := 1;
    }

    /** `UPDATE boards SET ... WHERE no = :no`: `change` is applied to every row with key
        `no` (there is at most one) and to no other row; returns the affected-row count. */
    method UpdateWhereNo(no: int, change: Board -> Board) returns (affected: nat)
      requires Valid()
      requires forall b :: change(b).no == b.no
      modifies this
      ensures Valid() && nextNo == old(nextNo) && |rows| == |old(rows)|
      ensures forall i :: 0 <= i < |rows| ==>
        rows[i] == if old(rows)[i].no == no then change(old(rows)[i]) else old(rows)[i]
      ensures affected == CountNo(old(rows), no)
    {
      var i := 0;
      affected := 0;
      while i < |rows|
        invariant 0 <= i <= |rows| == |old(rows)| && nextNo == old(nextNo)
        invariant forall j :: 0 <= j < i ==>
          rows[j] == if old(rows)[j].no == no then change(old(rows)[j]) else old(rows)[j]
        invariant forall j :: i <= j < |rows| ==> rows[j] == old(rows)[j]
        invariant affected == CountNo(old(rows)[..i], no)
      {
        CountSnoc(old(rows), i, HasNo(no));
        if rows[i].no == no {
          rows := rows[i := change(rows[i])];
          affected := affected + 1;
        }
        i := i + 1;
      }
      assert old(rows)[..i] == old(rows);
      SameKeys(old(rows), rows, nextNo);
    }

    /** `closingBoard(currentTime)`: closes every open row whose non-null deadline is
        `<= currentTime` and returns how many rows it closed. */
    method ClosingBoard(currentTime: Option<int>) returns (affected: nat)
      requires Valid()
      modifies this
      ensures Valid() && nextNo == old(nextNo)
      ensures rows == Sweep(old(rows), currentTime)
      ensures affected == CountExpired(old(rows), currentTime)
    {
      var i := 0;
      affected := 0;
      while i < |rows|
        invariant 0 <= i <= |rows| == |old(rows)| && nextNo == old(nextNo)
        invariant forall j :: 0 <= j < i ==> rows[j] == Swept(old(rows)[j], currentTime)
        invariant forall j :: i <= j < |rows| ==> rows[j] == old(rows)[j]
        invariant affected == CountExpired(old(rows)[..i], currentTime)
      {
        CountSnoc(old(rows), i, ExpiredAt(currentTime));
        if Expired(rows[i], currentTime) {
          affected := affected + 1;
        }
        rows := rows[i := Swept(rows[i], currentTime)];
        i := i + 1;
      }
      assert old(rows)[..i] == old(rows);
      SweepIs(old(rows), rows, currentTime);
      SameKeys(old(rows), rows, nextNo);
    }

    /** `boardClosed(no)`: sets `isDeadline` on row `no` only. */
    method BoardClosed(no: int) returns (affected: nat)
      requires Valid()
      modifies this
      ensures Valid() && nextNo == old(nextNo) && |rows| == |old(rows)|
      ensures forall i :: 0 <= i < |rows| ==>
        rows[i] == if old(rows)[i].no == no then old(rows)[i].(isDeadline := true) else old(rows)[i]
      ensures affected == CountNo(old(rows), no)
    {
      affected := UpdateWhereNo(no, (b: Board) => b.(isDeadline := true));
    }

    /** `cancelClosedBoard(no)`: clears `isDeadline` on row `no` only. */
    method CancelClosedBoard(no: int) returns (affected: nat)
      requires Valid()
      modifies this
      ensures Valid() && nextNo == old(nextNo) && |rows| == |old(rows)|
      ensures forall i :: 0 <= i < |rows| ==>
        rows[i] == if old(rows)[i].no == no then old(rows)[i].(isDeadline := false) else old(rows)[i]
      ensures affected == CountNo(old(rows), no)
    {
      affected := UpdateWhereNo(no, (b: Board) => b.(isDeadline := false));
    }

    /** `addBoardHit({no, hit})`: sets row `no`'s hit to the given `hit + 1`
        (not to the stored hit plus one). */
    method AddBoardHit(no: int, hit: int) returns (affected: nat)
      requires Valid()
      modifies this
      ensures Valid() && nextNo == old(nextNo) && |rows| == |old(rows)|
      ensures forall i :: 0 <= i < |rows| ==>
        rows[i] == if old(rows)[i].no == no then old(rows)[i].(hit := hit + 1) else old(rows)[i]
      ensures affected == CountNo(old(rows), no)
    {
      affected := UpdateWhereNo(no, (b: Board) => b.(hit := hit + 1));
    }

    /** `updateBoard(no, patch)`: overwrites exactly the patch's columns of row `no`. */
    method UpdateBoard(no: int, patch: map<Column, Value>) returns (affected: nat)
      requires Valid() && WellTyped(patch)
      modifies this
      ensures Valid() && nextNo == old(nextNo) && |rows| == |old(rows)|
      ensures forall i :: 0 <= i < |rows| ==>
        rows[i] == if old(rows)[i].no == no then ApplyPatch(old(rows)[i], patch) else old(rows)[i]
      ensures affected == CountNo(old(rows), no)
    {
      affected := UpdateWhereNo(no, (b: Board) requires WellTyped(patch) => ApplyPatch(b, patch));
    }

    /** `deleteBoard(no)`: a soft delete; row `no` stays in the table with its tombstone set. */
    method DeleteBoard(no: int, now: int) returns (affected: nat)
      requires Valid()
      modifies this
      ensures Valid() && nextNo == old(nextNo) && |rows| == |old(rows)|
      ensures forall i :: 0 <= i < |rows| ==>
        rows[i] == if old(rows)[i].no == no then old(rows)[i].(deletedAt := Some(now)) else old(rows)[i]
      ensures affected == CountNo(old(rows), no)
    {
      affected := UpdateWhereNo(no, (b: Board) => b.(deletedAt := Some(now)));
    }

    /** `createBoard(...)`: inserts one open, unviewed row owned by `userNo` with the given
        deadline and the next key. `accepted` is whether the store reports the insert;
        when it does not, nothing is written and zero affected rows are reported. */
    method CreateBoard(draft: BoardDraft, userNo: int, endTime: Option<int>, now: int, accepted: bool)
      returns (info: InsertInfo)
      requires Valid()
      modifies this
      ensures Valid()
      ensures !accepted ==> info.affectedRows == 0 && rows == old(rows) && nextNo == old(nextNo)
      ensures accepted ==> info == InsertInfo(1, old(nextNo)) && nextNo == old(nextNo) + 1
      ensures accepted ==> rows == old(rows) + [NewRow(draft, old(nextNo), userNo, endTime, now)]
    {
      if !accepted {
        return InsertInfo(0, 0);
      }
      info := InsertInfo(1, nextNo);
      rows := rows + [NewRow(draft, nextNo, userNo, endTime, now)];
      nextNo := nextNo + 1;
    }

    /** The raw `UPDATE boards SET hit = (CASE WHEN no = k THEN v ... END) WHERE no IN (keys)`:
        every row whose key is in `hits` takes that hit value; returns the matched-row count.
        Raw SQL does not skip soft-deleted rows. */
    method SetHits(hits: map<int, int>) returns (affected: nat)
      requires Valid()
      modifies this
      ensures Valid() && nextNo == old(nextNo) && |rows| == |old(rows)|
      ensures rows == WithHits(old(rows), hits)
      ensures affected == Count(old(rows), KeyIn(hits))
    {
      var i := 0;
      affected := 0;
      while i < |rows|
        invariant 0 <= i <= |rows| == |old(rows)| && nextNo == old(nextNo)
        invariant forall j :: 0 <= j < i ==> rows[j] == HitSet(old(rows)[j], hits)
        invariant forall j :: i <= j < |rows| ==> rows[j] == old(rows)[j]
        invariant affected == Count(old(rows)[..i], KeyIn(hits))
      {
        CountSnoc(old(rows), i, KeyIn(hits));
        if rows[i].no in hits {
          affected := affected + 1;
        }
        rows := rows[i := HitSet(rows[i], hits)];
        i := i + 1;
      }
      assert old(rows)[..i] == old(rows);
      SameKeys(old(rows), rows, nextNo);
    }
  }

  /** The table after the bulk hit update: each row whose key is in `hits` takes the
      mapped value, every other row is as it was. */
  function WithHits(rows: seq<Board>, hits: map<int, int>): (r: seq<Board>)
    ensures |r| == |rows|
    ensures forall i :: 0 <= i < |rows| ==>
      r[i] == if rows[i].no in hits then rows[i].(hit := hits[rows[i].no]) else rows[i]
  {
    seq(|rows|, i requires 0 <= i < |rows| => HitSet(rows[i], hits))
  }

  /** One row under the bulk hit update. */
  function HitSet(b: Board, hits: map<int, int>): Board
  {
    if b.no in hits then b.(hit := hits[b.no]) else b
  }

  /** The row an insert creates: open, with no views, not deleted. */
  function NewRow(draft: BoardDraft, no: int, userNo: int, endTime: Option<int>, now: int): Board
  {
    Board(no, userNo, draft.title, draft.description, draft.summary, draft.price, draft.target,
          draft.category, draft.area, 0, false, endTime, now, None)
  }
}

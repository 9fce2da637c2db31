/** The review repository: the insert, the duplicate check and the paged listing of the
    reviews a user has received. */
module Reviews {
  import opened Common
  import opened Sql

  /** One row of the `reviews` table. `board` is set to NULL when the board row goes away;
      `deletedAt` is the soft-delete tombstone. */
  datatype Review = Review(
    no: int, board: Option<int>, reviewer: int, targetUser: int,
    description: string, rating: int, deletedAt: Option<int>)

  /** The rows a select query sees. */
  predicate Live(v: Review)
  {
    v.deletedAt.None?
  }

  /** The duplicate check's WHERE clause. Its roles are the reverse of its parameter names:
      the reviewer must be `targetUserNo` and the reviewed user `requesterNo`. */
  predicate Counterpart(requesterNo: int, targetUserNo: int, boardNo: int, v: Review)
  {
    Live(v) && v.reviewer == targetUserNo && v.targetUser == requesterNo && v.board == Some(boardNo)
  }

  function CounterpartOf(requesterNo: int, targetUserNo: int, boardNo: int): Review -> bool
  {
    (v: Review) => Counterpart(requesterNo, targetUserNo, boardNo, v)
  }

  /** `checkDuplicateReview(...)`: `!!count` of the matching rows. */
  function CheckDuplicateReview(reviews: seq<Review>, requesterNo: int, targetUserNo: int, boardNo: int): (r: bool)
    ensures r <==> exists v :: v in reviews && Counterpart(requesterNo, targetUserNo, boardNo, v)
  {
    var matching := Filter(reviews, CounterpartOf(requesterNo, targetUserNo, boardNo));
    assert matching != [] ==> matching[0] in matching;
    Count(reviews, CounterpartOf(requesterNo, targetUserNo, boardNo)) > 0
  }

  /** Because of the swapped roles, the reviews the requester `a` wrote about the target
      `b` never count as a duplicate of `a` reviewing `b`, on any board. */
  lemma OwnReviewsAreNotDuplicates(reviews: seq<Review>, a: int, b: int, k: int)
    requires a != b
    requires forall v :: v in reviews ==> v.reviewer == a && v.targetUser == b
    ensures !CheckDuplicateReview(reviews, a, b, k)
  {
  }

  /** What `readUserReviews` returns: one page of rows and the total number of matches. */
  datatype ReviewPage = ReviewPage(reviews: seq<Review>, count: nat)

  predicate Received(userNo: int, v: Review)
  {
    Live(v) && v.targetUser == userNo
  }

  function ReceivedBy(userNo: int): Review -> bool
  {
    (v: Review) => Received(userNo, v)
  }

  /** `take(n).skip(k)` on a result: drop `k` rows, keep at most `n`; a zero `take` or `skip`
      is ignored. */
  function Window<T>(s: seq<T>, skip: nat, take: nat): (r: seq<T>)
    ensures take > 0 ==> |r| <= take
    ensures skip <= |s| ==> skip + |r| <= |s| && r == s[skip..skip + |r|]
    ensures skip >= |s| ==> r == []
    ensures skip <= |s| && take > 0 && skip + take <= |s| ==> |r| == take
    ensures skip <= |s| ==> |r| == (if take == 0 || skip + take > |s| then |s| - skip else take)
  {
    var rest := if skip <= |s| then s[skip..] else [];
    if take == 0 then rest else Take(rest, take)
  }

  /** The rows page `page` skips: `take * (page - 1)`. */
  function Offset(take: nat, page: int): (k: nat)
    requires page >= 1
    ensures k == take * (page - 1)
  {
    take * (page - 1)
  }

  /** `readUserReviews(userNo, take, page)`: the reviews user `userNo` received, page `page`
      of `take` rows each, and how many there are in all. */
  function ReadUserReviews(reviews: seq<Review>, userNo: int, take: nat, page: int): (r: ReviewPage)
    requires page >= 1
    ensures r.count == Count(reviews, ReceivedBy(userNo))
    ensures forall v :: v in r.reviews ==> v in reviews && Received(userNo, v)
    ensures take > 0 ==> |r.reviews| <= take
    ensures r.reviews == Window(Filter(reviews, ReceivedBy(userNo)), Offset(take, page), take)
  {
    var matching := Filter(reviews, ReceivedBy(userNo));
    var k := Offset(take, page);
    var w := Window(matching, k, take);
    assert forall v :: v in w ==> v in matching by {
      if k <= |matching| {
        forall v | v in w ensures v in matching {
          var i :| 0 <= i < |w| && w[i] == v;
          assert matching[k + i] == v;
        }
      }
    }
    ReviewPage(w, Count(reviews, ReceivedBy(userNo)))
  }

  /** Two adjacent windows of `n` rows make the window of `2 * n` rows. */
  lemma WindowsTile<T>(s: seq<T>, k: nat, n: nat)
    requires n > 0
    ensures Window(s, k, n) + Window(s, k + n, n) == Window(s, k, 2 * n)
  {
    var a := Window(s, k, n);
    var b := Window(s, k + n, n);
    if k + n <= |s| {
      assert a == s[k..k + n];
      if k + 2 * n <= |s| {
        assert b == s[k + n..k + 2 * n];
      } else {
        assert b == s[k + n..];
      }
    }
  }

  /** Consecutive pages tile the matches: page `p` followed by page `p + 1` is the window of
      `2 * take` rows starting where page `p` starts. */
  lemma PagesTile(reviews: seq<Review>, userNo: int, take: nat, page: int)
    requires page >= 1 && take > 0
    ensures ReadUserReviews(reviews, userNo, take, page).reviews + ReadUserReviews(reviews, userNo, take, page + 1).reviews
      == Window(Filter(reviews, ReceivedBy(userNo)), Offset(take, page), 2 * take)
  {
    var m := Filter(reviews, ReceivedBy(userNo));
    var k := Offset(take, page);
    NextPageStart(take, page);
    var next := ReadUserReviews(reviews, userNo, take, page + 1);
    assert next.reviews == Window(m, k + take, take);
    WindowsTile(m, k, take);
  }

  lemma NextPageStart(take: nat, page: int)
    requires page >= 1
    ensures Offset(take, page + 1) == Offset(take, page) + take
  {
  }

  /** The `reviews` table with its AUTO_INCREMENT counter. */
  class ReviewRepository {
    var rows: seq<Review>
    var nextNo: int

    constructor ()
      ensures rows == [] && nextNo == 1
    {
      rows := [];
      nextNo := 1;
    }

    /** `createReview(...)`: inserts one row with exactly the given description, rating,
        reviewer, reviewed user and board, under the next key, and returns that key. */
    method CreateReview(description: string, rating: int, reviewer: int, targetUser: int, board: int)
      returns (insertId: int)
      modifies this
      ensures insertId == old(nextNo) && nextNo == old(nextNo) + 1
      ensures rows == old(rows) + [Review(insertId, Some(board), reviewer, targetUser, description, rating, None)]
    {
      insertId := nextNo;
      rows := rows + [Review(insertId, Some(board), reviewer, targetUser, description, rating, None)];
      nextNo := nextNo + 1;
    }
  }

  /** After `a` reviews `b` on board `k`, the duplicate check asked by `b` about `a` on `k`
      answers yes, and `b`'s received count grows by one. */
  lemma CreatedReviewIsSeen(reviews: seq<Review>, no: int, a: int, b: int, k: int, description: string, rating: int)
    ensures var after := reviews + [Review(no, Some(k), a, b, description, rating, None)];
      CheckDuplicateReview(after, b, a, k)
      && ReadUserReviews(after, b, 0, 1).count == ReadUserReviews(reviews, b, 0, 1).count + 1
  {
    var v := Review(no, Some(k), a, b, description, rating, None);
    assert v in reviews + [v];
    FilterConcat(reviews, [v], ReceivedBy(b));
    assert Filter([v], ReceivedBy(b)) == [v] + Filter([], ReceivedBy(b));
  }
}

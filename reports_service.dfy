/** Filing a report against a board or a user: the check list is de-duplicated, the
    target and the reporter are looked up in that order, the report row is inserted and
    linked to its owners. */
module Reports {
  import opened Common

  /** JavaScript's `indexOf`: the first position of `x` in `s`, or -1. */
  function IndexOf(s: seq<int>, x: int): (i: int)
    ensures -1 <= i < |s|
    ensures i == -1 <==> x !in s
    ensures 0 <= i ==> s[i] == x && x !in s[..i]
  {
    if s == [] then -1
    else if s[0] == x then 0
    else
      var j := IndexOf(s[1..], x);
      assert s == [s[0]] + s[1..];
      if j == -1 then -1
      else
        assert s[..j + 1] == [s[0]] + s[1..][..j];
        j + 1
  }

  /** `checks.filter((el, i) => checks.indexOf(el) === i)` over the first `n` positions. */
  function KeepFirst(s: seq<int>, n: nat): seq<int>
    requires n <= |s|
  {
    if n == 0 then []
    else KeepFirst(s, n - 1) + (if IndexOf(s, s[n - 1]) == n - 1 then [s[n - 1]] else [])
  }

  /** The de-duplicated check list. */
  function UniqueChecks(checks: seq<int>): seq<int>
  {
    KeepFirst(checks, |checks|)
  }

  /** Reference definition: the first occurrence of each value, in original order. */
  function Distinct(s: seq<int>): seq<int>
  {
    if s == [] then []
    else
      var init := s[..|s| - 1];
      Distinct(init) + (if s[|s| - 1] in init then [] else [s[|s| - 1]])
  }

  predicate NoDuplicates(s: seq<int>)
  {
    forall i, j :: 0 <= i < j < |s| ==> s[i] != s[j]
  }

  /** `Distinct` keeps exactly the values of `s`, each once. */
  lemma {:induction false} DistinctProperties(s: seq<int>)
    ensures forall x :: x in Distinct(s) <==> x in s
    ensures NoDuplicates(Distinct(s))
  {
    if s != [] {
      var init := s[..|s| - 1];
      var last := s[|s| - 1];
      DistinctProperties(init);
      assert s == init + [last];
    }
  }

  /** The index filter is the first-occurrence rule. */
  lemma {:induction false} KeepFirstIsDistinct(s: seq<int>, n: nat)
    requires n <= |s|
    ensures KeepFirst(s, n) == Distinct(s[..n])
  {
    if n > 0 {
      KeepFirstIsDistinct(s, n - 1);
      assert s[..n][..n - 1] == s[..n - 1];
      var i := IndexOf(s, s[n - 1]);
      if i == n - 1 {
        assert s[n - 1] !in s[..n - 1];
      } else {
        assert i < n - 1;
        assert s[..n - 1][i] == s[n - 1];
      }
    }
  }

  /** The de-duplicated checks hold every checked box once, and nothing else. */
  lemma UniqueChecksCorrect(checks: seq<int>)
    ensures UniqueChecks(checks) == Distinct(checks)
    ensures forall x :: x in UniqueChecks(checks) <==> x in checks
    ensures NoDuplicates(UniqueChecks(checks))
  {
    KeepFirstIsDistinct(checks, |checks|);
    assert checks[..|checks|] == checks;
    DistinctProperties(checks);
  }

  /** The request body of `createReport`. */
  datatype ReportRequest = ReportRequest(
    head: string, headNo: int, reportUserNo: int, checks: seq<int>, description: string)

  /** A stored report: its key, the complaint text and the checked boxes. */
  datatype Report = Report(no: int, description: string, checks: seq<int>)

  /** The success answer `{ success: true, reportNo }`. */
  datatype Receipt = Receipt(success: bool, reportNo: int)

  /** Why `createReport` refuses, in the order its checks run; `inserted` is whether the
      store reports the new row. */
  function ReportRejection(req: ReportRequest, boards: set<int>, users: set<int>, inserted: bool): (r: Option<Error>)
    ensures r.None? <==>
      ((req.head == "board" && req.headNo in boards) || (req.head == "user" && req.headNo in users))
      && req.reportUserNo in users && inserted
    ensures req.head != "board" && req.head != "user" ==> r == Some(Error(NotFound, RouteMissing))
    ensures req.head == "board" && req.headNo !in boards ==> r == Some(Error(NotFound, ReportedBoardMissing))
    ensures req.head == "user" && req.headNo !in users ==> r == Some(Error(NotFound, ReportedUserMissing))
    ensures r == Some(Error(NotFound, ReporterMissing)) <==>
      ((req.head == "board" && req.headNo in boards) || (req.head == "user" && req.headNo in users))
      && req.reportUserNo !in users
    ensures r.Some? && r.value.status == InternalServerError ==> !inserted
    ensures (((req.head == "board" && req.headNo in boards) || (req.head == "user" && req.headNo in users))
      && req.reportUserNo in users && !inserted) ==>
      r == Some(Error(InternalServerError, ReportSaveFailed))
  {
    if req.head == "board" then
      if req.headNo !in boards then Some(Error(NotFound, ReportedBoardMissing))
      else if req.reportUserNo !in users then Some(Error(NotFound, ReporterMissing))
      else if !inserted then Some(Error(InternalServerError, ReportSaveFailed))
      else None
    else if req.head == "user" then
      if req.headNo !in users then Some(Error(NotFound, ReportedUserMissing))
      else if req.reportUserNo !in users then Some(Error(NotFound, ReporterMissing))
      else if !inserted then Some(Error(InternalServerError, ReportSaveFailed))
      else None
    else Some(Error(NotFound, RouteMissing))
  }

  /** A one-to-many relation after `v` is added under `k`. */
  function Link(m: map<int, seq<int>>, k: int, v: int): (r: map<int, seq<int>>)
    ensures r.Keys == m.Keys + {k}
    ensures r[k] == (if k in m then m[k] else []) + [v]
    ensures forall j :: j in m && j != k ==> r[j] == m[j]
  {
    m[k := (if k in m then m[k] else []) + [v]]
  }

  /** The two report tables, their AUTO_INCREMENT counters and the four relations a
      report is linked through. */
  class ReportsService {
    var boardReports: seq<Report>
    var userReports: seq<Report>
    var nextBoardReportNo: int
    var nextUserReportNo: int
    /** `board.reports`: the reports filed against each board. */
    var reportsOnBoard: map<int, seq<int>>
    /** `user.boardReport`: the board reports each user filed. */
    var boardReportsBy: map<int, seq<int>>
    /** `user.reports`: the reports filed against each user. */
    var reportsOnUser: map<int, seq<int>>
    /** `user.userReport`: the user reports each user filed. */
    var userReportsBy: map<int, seq<int>>

    constructor ()
      ensures boardReports == [] && userReports == [] && nextBoardReportNo == 1 && nextUserReportNo == 1
      ensures reportsOnBoard == map[] && boardReportsBy == map[] && reportsOnUser == map[] && userReportsBy == map[]
    {
      boardReports := [];
      userReports := [];
      nextBoardReportNo := 1;
      nextUserReportNo := 1;
      reportsOnBoard := map[];
      boardReportsBy := map[];
      reportsOnUser := map[];
      userReportsBy := map[];
    }

    /** `createReport(dto)`. `boards` and `users` are the keys the lookups can find;
        `inserted` is whether the store reports the new report row. A refusal writes
        nothing; success stores the report with its de-duplicated checks and links it. */
    method CreateReport(req: ReportRequest, boards: set<int>, users: set<int>, inserted: bool)
      returns (res: Result<Receipt>)
      modifies this
      ensures var why := ReportRejection(req, boards, users, inserted);
        (why.Some? ==> res == Err(why.value)) && (why.None? <==> res.Ok?)
      ensures res.Err? ==> unchanged(this)
      ensures res.Ok? && req.head == "board" ==>
        res.value == Receipt(true, old(nextBoardReportNo))
        && boardReports == old(boardReports) + [Report(old(nextBoardReportNo), req.description, UniqueChecks(req.checks))]
        && nextBoardReportNo == old(nextBoardReportNo) + 1
        && reportsOnBoard == Link(old(reportsOnBoard), req.headNo, old(nextBoardReportNo))
        && boardReportsBy == Link(old(boardReportsBy), req.reportUserNo, old(nextBoardReportNo))
        && userReports == old(userReports) && nextUserReportNo == old(nextUserReportNo)
        && reportsOnUser == old(reportsOnUser) && userReportsBy == old(userReportsBy)
      ensures res.Ok? && req.head == "user" ==>
        res.value == Receipt(true, old(nextUserReportNo))
        && userReports == old(userReports) + [Report(old(nextUserReportNo), req.description, UniqueChecks(req.checks))]
        && nextUserReportNo == old(nextUserReportNo) + 1
        && reportsOnUser == Link(old(reportsOnUser), req.headNo, old(nextUserReportNo))
        && userReportsBy == Link(old(userReportsBy), req.reportUserNo, old(nextUserReportNo))
        && boardReports == old(boardReports) && nextBoardReportNo == old(nextBoardReportNo)
        && reportsOnBoard == old(reportsOnBoard) && boardReportsBy == old(boardReportsBy)
    {
      var unique := UniqueChecks(req.checks);
      if req.head == "board" {
        if req.headNo !in boards {
          return Err(Error(NotFound, ReportedBoardMissing));
        }
        if req.reportUserNo !in users {
          return Err(Error(NotFound, ReporterMissing));
        }
        if !inserted {
          return Err(Error(InternalServerError, ReportSaveFailed));
        }
        var no := nextBoardReportNo;
        boardReports := boardReports + [Report(no, req.description, unique)];
        nextBoardReportNo := nextBoardReportNo + 1;
        reportsOnBoard := Link(reportsOnBoard, req.headNo, no);
        boardReportsBy := Link(boardReportsBy, req.reportUserNo, no);
        return Ok(Receipt(true, no));
      } else if req.head == "user" {
        if req.headNo !in users {
          return Err(Error(NotFound, ReportedUserMissing));
        }
        if req.reportUserNo !in users {
          return Err(Error(NotFound, ReporterMissing));
        }
        if !inserted {
          return Err(Error(InternalServerError, ReportSaveFailed));
        }
        var no := nextUserReportNo;
        userReports := userReports + [Report(no, req.description, unique)];
        nextUserReportNo := nextUserReportNo + 1;
        reportsOnUser := Link(reportsOnUser, req.headNo, no);
        userReportsBy := Link(userReportsBy, req.reportUserNo, no);
        return Ok(Receipt(true, no));
      }
      return Err(Error(NotFound, RouteMissing));
    }
  }
}

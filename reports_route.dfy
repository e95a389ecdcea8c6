/**
 * `/api/reports` (app/api/reports/route.ts). POST files a report after guards
 * in the order authentication, reason present, reason valid, a target given,
 * theory exists, card exists; the report starts PENDING. GET is for moderators
 * and filters by status only when the query names a valid status. The report
 * table is a sequence, newest first (the `createdAt: "desc"` order); the theory
 * and card tables are seen through their sets of ids.
 */
module ReportsRoute {
  import opened Common
  import AuthHelpers

  /**
   * The values of the `ReportReason` and `ReportStatus` enums, as the report
   * forms and the moderation page list them.
   */
  const ReportReasons: seq<string> := ["SPAM", "MISINFORMATION", "INAPPROPRIATE", "SPOILER", "LEAK", "DUPLICATE", "OTHER"]
  const ReportStatuses: seq<string> := ["PENDING", "REVIEWED", "RESOLVED", "DISMISSED"]
  const Pending := "PENDING"

  datatype Report = Report(
    id: string,
    reason: string,
    details: Option<string>,
    reporterId: string,
    theoryId: Option<string>,
    cardId: Option<string>,
    status: string)

  /** `{ reason, details, theoryId, cardId }` of the request body. */
  datatype ReportBody = ReportBody(
    reason: Option<string>,
    details: Option<string>,
    theoryId: Option<string>,
    cardId: Option<string>)

  /** The response: an HTTP status, the error message ("" on success) and the report created. */
  datatype Outcome = Outcome(status: int, error: string, report: Option<Report>)

  const AuthRequired := "Требуется авторизация"
  const ReasonRequired := "Причина жалобы обязательна"
  const ReasonInvalid := "Некорректная причина жалобы"
  const TargetRequired := "Необходимо указать теорию или карточку для жалобы"
  const TheoryNotFound := "Теория не найдена"
  const CardNotFound := "Карточка доказательства не найдена"

  /** The named theory is missing. */
  predicate TheoryMissing(body: ReportBody, theoryIds: set<string>) {
    Truthy(body.theoryId) && body.theoryId.value !in theoryIds
  }

  /** The named card is missing. */
  predicate CardMissing(body: ReportBody, cardIds: set<string>) {
    Truthy(body.cardId) && body.cardId.value !in cardIds
  }

  /** The request passes the three 400 guards: a valid reason and at least one target. */
  predicate Admissible(body: ReportBody) {
    && Truthy(body.reason) && body.reason.value in ReportReasons
    && (Truthy(body.theoryId) || Truthy(body.cardId))
  }

  /** The response POST gives. */
  function PostReportOutcome(current: Option<User>, body: ReportBody,
                             theoryIds: set<string>, cardIds: set<string>, id: string): (r: Outcome)
    ensures r.status in {201, 400, 401, 404}
    ensures r.status == 401 <==> current.None?
    ensures r.status == 400 <==> current.Some? && !Admissible(body)
    ensures r.status == 404 <==> current.Some? && Admissible(body)
                                  && (TheoryMissing(body, theoryIds) || CardMissing(body, cardIds))
    ensures r.status == 404 ==> r.error == (if TheoryMissing(body, theoryIds) then TheoryNotFound else CardNotFound)
    ensures r.report.Some? <==> r.status == 201
    ensures r.status == 201 ==>
      && r.report.value == Report(id, body.reason.value, OrNull(body.details), current.value.id,
                                  OrNull(body.theoryId), OrNull(body.cardId), Pending)
      && r.report.value.reason in ReportReasons
      && (r.report.value.theoryId.Some? || r.report.value.cardId.Some?)
      && (r.report.value.theoryId.Some? ==> r.report.value.theoryId.value in theoryIds)
      && (r.report.value.cardId.Some? ==> r.report.value.cardId.value in cardIds)
  {
    match AuthHelpers.RequireAuth(current)
    case Err(_) => Outcome(401, AuthRequired, None)
    case Ok(user) =>
      if !Truthy(body.reason) then Outcome(400, ReasonRequired, None)
      else if body.reason.value !in ReportReasons then Outcome(400, ReasonInvalid, None)
      else if !Truthy(body.theoryId) && !Truthy(body.cardId) then Outcome(400, TargetRequired, None)
      else if TheoryMissing(body, theoryIds) then Outcome(404, TheoryNotFound, None)
      else if CardMissing(body, cardIds) then Outcome(404, CardNotFound, None)
      else Outcome(201, "", Some(Report(id, body.reason.value, OrNull(body.details), user.id,
                                        OrNull(body.theoryId), OrNull(body.cardId), Pending)))
  }

  /** The reports carrying `status`, in table order. */
  function WithStatus(reports: seq<Report>, status: string): (r: seq<Report>)
    ensures |r| <= |reports|
    ensures forall x :: x in r <==> x in reports && x.status == status
  {
    if reports == [] then []
    else if reports[0].status == status then [reports[0]] + WithStatus(reports[1..], status)
    else WithStatus(reports[1..], status)
  }

  /** The `where` of GET: a status filter only for a truthy, valid status parameter. */
  function StatusFilter(statusParam: Option<string>): (f: Option<string>)
    ensures f.Some? <==> Truthy(statusParam) && statusParam.value in ReportStatuses
    ensures f.Some? ==> f == statusParam
  {
    if Truthy(statusParam) && statusParam.value in ReportStatuses then statusParam else None
  }

  class ReportTable {
    var reports: seq<Report>

    constructor ()
      ensures reports == []
    {
      reports := [];
    }

    /** POST: the guards, then `report.create`; the new report is the newest. */
    method PostReport(current: Option<User>, body: ReportBody, theoryIds: set<string>, cardIds: set<string>,
                      id: string)
      returns (status: int, error: string, report: Option<Report>)
      modifies this
      ensures Outcome(status, error, report) == PostReportOutcome(current, body, theoryIds, cardIds, id)
      ensures status == 201 ==> reports == [report.value] + old(reports)
      ensures status != 201 ==> reports == old(reports)
    {
      var auth := AuthHelpers.RequireAuth(current);
      if auth.Err? {
        return 401, AuthRequired, None;
      }
      var user := auth.value;
      if !Truthy(body.reason) {
        return 400, ReasonRequired, None;
      }
      if body.reason.value !in ReportReasons {
        return 400, ReasonInvalid, None;
      }
      if !Truthy(body.theoryId) && !Truthy(body.cardId) {
        return 400, TargetRequired, None;
      }
      if Truthy(body.theoryId) && body.theoryId.value !in theoryIds {
        return 404, TheoryNotFound, None;
      }
      if Truthy(body.cardId) && body.cardId.value !in cardIds {
        return 404, CardNotFound, None;
      }
      var created := Report(id, body.reason.value, OrNull(body.details), user.id,
                            OrNull(body.theoryId), OrNull(body.cardId), Pending);
      reports := [created] + reports;
      return 201, "", Some(created);
    }

    /** GET: moderators only; then the reports the `where` selects, newest first. */
    method GetReports(current: Option<User>, statusParam: Option<string>)
      returns (r: Result<seq<Report>, AuthHelpers.AuthError>)
      ensures r.Err? <==> AuthHelpers.RequireModerator(current).Err?
      ensures r.Err? ==> r.error == AuthHelpers.RequireModerator(current).error
      ensures r.Ok? && StatusFilter(statusParam).None? ==> r.value == reports
      ensures r.Ok? && StatusFilter(statusParam).Some? ==> r.value == WithStatus(reports, statusParam.value)
    {
      var auth := AuthHelpers.RequireModerator(current);
      if auth.Err? {
        return Err(auth.error);
      }
      var filter: Option<string> := None;
      if Truthy(statusParam) && statusParam.value in ReportStatuses {
        filter := statusParam;
      }
      if filter.Some? {
        r := Ok(WithStatus(reports, filter.value));
      } else {
        r := Ok(reports);
      }
    }
  }

  // ---------------------------------------------------------------------------
  // Lemmas.

  /** The theory is checked before the card: with both missing, the answer names the theory. */
  lemma TheoryCheckedFirst(user: User, body: ReportBody, id: string)
    requires Truthy(body.reason) && body.reason.value in ReportReasons
    requires Truthy(body.theoryId) && Truthy(body.cardId)
    ensures PostReportOutcome(Some(user), body, {}, {}, id) == Outcome(404, TheoryNotFound, None)
  {
  }

  /** A report on an existing theory and a missing card is refused for the card. */
  lemma MissingCardRefused(user: User, body: ReportBody, theoryIds: set<string>, id: string)
    requires Admissible(body) && Truthy(body.cardId)
    requires !TheoryMissing(body, theoryIds)
    ensures PostReportOutcome(Some(user), body, theoryIds, {}, id) == Outcome(404, CardNotFound, None)
  {
  }

  /** A filed report is found by a moderator filtering on PENDING. */
  lemma FiledReportIsPending(reports: seq<Report>, current: Option<User>, body: ReportBody,
                             theoryIds: set<string>, cardIds: set<string>, id: string)
    requires PostReportOutcome(current, body, theoryIds, cardIds, id).status == 201
    ensures var rep := PostReportOutcome(current, body, theoryIds, cardIds, id).report.value;
      WithStatus([rep] + reports, Pending) == [rep] + WithStatus(reports, Pending)
  {
    var rep := PostReportOutcome(current, body, theoryIds, cardIds, id).report.value;
    assert ([rep] + reports)[1..] == reports;
  }

  /** An unknown status parameter lists everything rather than nothing. */
  lemma UnknownStatusListsAll()
    ensures StatusFilter(Some("pending")) == None
    ensures StatusFilter(Some("")) == None
    ensures StatusFilter(Some("RESOLVED")) == Some("RESOLVED")
  {
  }

  /** Filtering keeps the table order: it distributes over concatenation. */
  lemma {:induction false} WithStatusAppend(a: seq<Report>, b: seq<Report>, status: string)
    ensures WithStatus(a + b, status) == WithStatus(a, status) + WithStatus(b, status)
  {
    if a == [] {
      assert a + b == b;
    } else {
      assert (a + b)[0] == a[0] && (a + b)[1..] == a[1..] + b;
      WithStatusAppend(a[1..], b, status);
    }
  }
}

/** The reports router: a report is accepted only when every field of the
    request is present, and is stored with a server-assigned date. */
module Reports {
  import opened Store

  /** The JSON body of POST `/`; an absent field is the empty string (both are falsy). */
  datatype ReportRequest = ReportRequest(
    reportType: string, message: string, name: string, username: string, email: string, createdAt: string)

  /** Every one of the six fields is present. */
  predicate Complete(req: ReportRequest) {
    req.reportType != "" && req.message != "" && req.name != "" &&
    req.username != "" && req.email != "" && req.createdAt != ""
  }

  /** The stored document: the request's own fields and the date of submission;
      the client's `createdAt` is not kept. */
  function Record(req: ReportRequest, now: Time): (r: Report)
    ensures r.reportType == req.reportType && r.message == req.message && r.name == req.name
    ensures r.username == req.username && r.email == req.email && r.date == now
  {
    Report(req.reportType, req.message, req.name, req.username, req.email, now)
  }

  /** POST `/`: validates the request and inserts one report. Returns the
      reply and the new reports collection. */
  function Submit(reports: seq<Report>, req: ReportRequest, now: Time): (r: (Reply<string>, seq<Report>))
    ensures r.0.Err? <==> !Complete(req)
    ensures r.0.Err? ==> r.0 == Err(400, "All fields are required.") && r.1 == reports
    ensures r.0.Ok? ==> r.0 == Ok(201, "Report submitted successfully.") && r.1 == reports + [Record(req, now)]
  {
    if !Complete(req) then (Err(400, "All fields are required."), reports)
    else (Ok(201, "Report submitted successfully."), reports + [Record(req, now)])
  }

  /** The client's `createdAt` decides only whether the report is accepted:
      two complete requests that differ in nothing else store the same report. */
  lemma CreatedAtNotStored(reports: seq<Report>, req: ReportRequest, createdAt: string, now: Time)
    requires Complete(req) && createdAt != ""
    ensures Submit(reports, req.(createdAt := createdAt), now) == Submit(reports, req, now)
  {
  }
}

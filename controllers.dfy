/** The two report endpoints
    (app/controllers/api/v1/sleep_summaries_controller.rb and
    app/controllers/api/v1/following_sleep_summaries_controller.rb): each
    caps the page size, calls its service and renders the Result. */
module Controllers {
  import opened Presence
  import opened Calendar
  import opened FollowRecords
  import opened Users
  import opened DailySummaries
  import opened ServiceResult
  import opened Paging
  import SelfReport
  import FollowingReport

  const DefaultPer: int := 25
  const SelfPerCap: int := 100
  const FollowingPerCap: int := 25

  const Ok: int := 200
  const BadRequest: int := 400

  /** `[params[:per]&.to_i || 25, cap].min`: the requested size, 25 when
      none is given, never more than `cap`. */
  function ClampPer(requested: Option<int>, cap: int): (per: int)
    ensures per <= cap
    ensures per == cap || per == requested.GetOr(DefaultPer)
    ensures requested.GetOr(DefaultPer) <= cap ==> per == requested.GetOr(DefaultPer)
  {
    var asked := requested.GetOr(DefaultPer);
    if asked < cap then asked else cap
  }

  /** A rendered body: `result.data` itself, or `{ error: result.error }`. */
  datatype Body<D> = Data(data: Option<D>) | ErrorBody(error: Option<ErrorValue>)

  datatype Response<D> = Response(status: int, body: Body<D>)

  /** `render json: result.data if result.success?`, otherwise the error
      with status 400. */
  function Render<D>(r: Result<D>): (resp: Response<D>)
    ensures resp.status == Ok <==> r.IsSuccess()
    ensures resp.status == BadRequest <==> r.IsFailure()
    ensures r.IsSuccess() ==> resp.body == Data(r.data)
    ensures r.IsFailure() ==> resp.body == ErrorBody(r.error)
  {
    if r.success then Response(Ok, Data(r.data)) else Response(BadRequest, ErrorBody(r.error))
  }

  /** SleepSummariesController#index for the signed-in user `u`: 400 with
      `{ error: { error: "Date range is too long" } }` for a range of more
      than 90 days, otherwise 200 with at most 100 days on the page. */
  function SleepSummariesIndex(rows: seq<DailySummary>, u: UserId, startDate: Option<string>, endDate: Option<string>,
                               page: Option<int>, per: Option<int>, today: Day, parse: SelfReport.DateParser): (resp: Response<SelfReport.SelfData>)
    requires ClampPer(per, SelfPerCap) >= 1
    ensures var p := SelfReport.ResolvePeriod(startDate, endDate, today, parse);
      (resp.status == BadRequest <==> SelfReport.RangeTooLarge(p)) &&
      (resp.status == BadRequest ==> resp.body == ErrorBody(Some(Keyed(SelfReport.RangeTooLong)))) &&
      (resp.status != BadRequest ==> resp.status == Ok)
    ensures resp.status == Ok ==>
      resp.body.Data? && resp.body.data.Some? &&
      resp.body.data.value.pagination.perPage <= SelfPerCap &&
      |resp.body.data.value.dailyBreakdown| <= SelfPerCap
  {
    Render(SelfReport.Call(rows, u, startDate, endDate, page, ClampPer(per, SelfPerCap), today, parse))
  }

  /** FollowingSleepSummariesController#index for the signed-in user `u`:
      always 200, with at most 25 followed users on the page. */
  function FollowingSleepSummariesIndex(edges: seq<Follow>, names: map<UserId, string>, rows: seq<DailySummary>, u: UserId,
                                        page: Option<int>, per: Option<int>, today: Day,
                                        format: FollowingReport.DayFormat): (resp: Response<FollowingReport.FollowingData>)
    requires ClampPer(per, FollowingPerCap) >= 1
    requires forall e :: e in edges ==> e.followedId in names
    ensures resp.status == Ok && resp.body.Data? && resp.body.data.Some?
    ensures resp.body.data.value.pagination.perPage <= FollowingPerCap
    ensures |resp.body.data.value.friendsSummary| <= FollowingPerCap
  {
    Render(FollowingReport.Call(edges, names, rows, u, today, page, ClampPer(per, FollowingPerCap), format))
  }
}

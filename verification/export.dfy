/**
 * The export routes: `POST /api/export` (chosen codes), `GET /api/export/all` (every active link,
 * optionally filtered, optionally with its clicks) and `GET /api/export/analytics/{short_code}`
 * (one link's clicks over a period). `export_to_csv_format` is not part of this model: it is a
 * parameter from rows to text.
 */
module Export {
  import opened Wrappers
  import opened Strings
  import opened Ordering
  import opened Tables
  import Analytics

  // ---------------------------------------------------------------- the exported rows

  /** One row of the `LEFT JOIN clicks ... GROUP BY u.id` export query. */
  datatype ExportRow = ExportRow(
    shortCode: string,
    originalUrl: string,
    customName: Option<string>,
    campaignName: Option<string>,
    createdAt: int,
    totalClicks: nat,
    uniqueVisitors: nat,
    qrClicks: nat,
    lastClicked: Option<int>)

  /**
   * The aggregates of one link: `COUNT(c.id)`, `COUNT(DISTINCT c.ip_address)`, the clicks with
   * source 'qr_code' and `MAX(c.clicked_at)`, all over the link's clicks (none gives 0, 0, 0, NULL).
   */
  function ExportRowOf(clicks: seq<ClickRow>, u: UrlRow): (r: ExportRow)
    ensures r.shortCode == u.shortCode && r.createdAt == u.createdAt
    ensures r.totalClicks == |ClicksOf(clicks, u.id)|
    ensures r.uniqueVisitors <= r.totalClicks && r.qrClicks <= r.totalClicks
    ensures r.lastClicked.None? <==> r.totalClicks == 0
  {
    var cs := ClicksOf(clicks, u.id);
    UniqueVisitorsAtMostClicks(cs);
    ExportRow(u.shortCode, u.originalUrl, u.customName, u.campaignName, u.createdAt,
              |cs|, UniqueVisitors(cs), CountSource(cs, QR_CODE_SOURCE), MaxClickedAt(cs))
  }

  function RowCreatedAt(r: ExportRow): int { r.createdAt }

  /** `WHERE p(u) GROUP BY u.id ORDER BY u.created_at DESC`. */
  function Rows(db: Db, p: UrlRow -> bool): seq<ExportRow> {
    var urls := SortDesc(Filter(db.urls, p), CreatedAt);
    seq(|urls|, i requires 0 <= i < |urls| => ExportRowOf(db.clicks, urls[i]))
  }

  /**
   * The export holds one row per table row that satisfies the condition, newest first: every
   * row is the aggregate of a selected link, every selected link has its row, and there is no
   * row exactly when no link is selected.
   */
  lemma RowsFacts(db: Db, p: UrlRow -> bool)
    ensures |Rows(db, p)| == |Filter(db.urls, p)|
    ensures SortedDesc(Rows(db, p), RowCreatedAt)
    ensures forall r | r in Rows(db, p) :: exists u | u in db.urls :: p(u) && r == ExportRowOf(db.clicks, u)
    ensures forall u | u in db.urls && p(u) :: ExportRowOf(db.clicks, u) in Rows(db, p)
    ensures Rows(db, p) == [] <==> forall u | u in db.urls :: !p(u)
  {
    var urls := SortDesc(Filter(db.urls, p), CreatedAt);
    var rows := Rows(db, p);
    SortDescSorted(Filter(db.urls, p), CreatedAt);
    forall i, j | 0 <= i < j < |rows| ensures RowCreatedAt(rows[i]) >= RowCreatedAt(rows[j]) {
      assert CreatedAt(urls[i]) >= CreatedAt(urls[j]);
    }
    forall r | r in rows ensures exists u | u in db.urls :: p(u) && r == ExportRowOf(db.clicks, u) {
      var i :| 0 <= i < |rows| && rows[i] == r;
      SortDescSameElements(Filter(db.urls, p), CreatedAt, urls[i]);
    }
    forall u | u in db.urls && p(u) ensures ExportRowOf(db.clicks, u) in rows {
      SortDescSameElements(Filter(db.urls, p), CreatedAt, u);
      var i :| 0 <= i < |urls| && urls[i] == u;
      assert rows[i] == ExportRowOf(db.clicks, u);
    }
    FilterEmpty(db.urls, p);
  }

  // ---------------------------------------------------------------- export_data

  /** `WHERE u.short_code IN (...) AND u.is_active = 1`. */
  function Chosen(codes: seq<string>): UrlRow -> bool {
    (u: UrlRow) => u.shortCode in codes && u.isActive
  }

  /** `get_export_data`: the rows of the chosen active links; a query error is swallowed into `[]`. */
  function GetExportData(db: Db, codes: seq<string>, fails: bool): seq<ExportRow> {
    if fails then [] else Rows(db, Chosen(codes))
  }

  const JSON: string := "json"
  const CSV: string := "csv"

  /** The two formats, matched after lower-casing. */
  predicate Supported(format: string) {
    Lower(format) == JSON || Lower(format) == CSV
  }

  /** A field of the request body: missing, JSON `null`, or text. */
  datatype Field = Absent | Null | Text(text: string)

  /**
   * The body of `POST /api/export`. A missing or `null` `short_codes` reads as the empty list;
   * a missing `format` as "json".
   */
  datatype ExportRequest = ExportRequest(shortCodes: seq<string>, format: Field)

  /** What an export answers with. */
  datatype Export =
    | Records(exportDate: int, totalRecords: nat, data: seq<ExportRow>)
    | Everything(exportDate: int, totalRecords: nat, campaign: Option<string>, startDate: Option<string>,
                 endDate: Option<string>, includeClicks: bool, urls: seq<ExportRow>, clicks: Option<seq<ClickExport>>)
    | UrlAnalytics(urlInfo: UrlRow, period: string, exportDate: int, statistics: PeriodStats,
                   sourceBreakdown: seq<Group<string>>, clickRows: seq<ClickDetail>)
    | Csv(content: string)

  /**
   * `export_data`. In this order: no codes is 400; more codes than `maxRecords` is 400; no row
   * found (including a swallowed query error) is 404; then the format decides: "json" and
   * "csv" in any letter case succeed, any other text is 400, and a `null` format, which has no
   * `lower()`, is 500.
   */
  function ExportData(db: Db, request: ExportRequest, maxRecords: nat, now: int,
                      csvOf: seq<ExportRow> -> string, fails: bool): (r: Result<Export>)
    ensures var codes := request.shortCodes;
      r == Fail(BAD_REQUEST) <==>
        || codes == [] || |codes| > maxRecords
        || (GetExportData(db, codes, fails) != [] && request.format.Text? && !Supported(request.format.text))
    ensures var codes := request.shortCodes;
      r == Fail(NOT_FOUND) <==>
        && 0 < |codes| <= maxRecords
        && (fails || forall u | u in db.urls :: !(u.isActive && u.shortCode in codes))
    ensures r == Fail(SERVER_ERROR) <==>
      && 0 < |request.shortCodes| <= maxRecords
      && GetExportData(db, request.shortCodes, fails) != []
      && request.format.Null?
    ensures r.Ok? ==> (request.format.Absent? || (request.format.Text? && Lower(request.format.text) == JSON)) ==>
      var data := Rows(db, Chosen(request.shortCodes));
      r.value == Records(now, |data|, data) && |data| > 0
    ensures r.Ok? ==> request.format.Text? && Lower(request.format.text) == CSV ==>
      r.value == Csv(csvOf(Rows(db, Chosen(request.shortCodes))))
  {
    var codes := request.shortCodes;
    RowsFacts(db, Chosen(codes));
    if codes == [] || |codes| > maxRecords then Fail(BAD_REQUEST)
    else
      var data := GetExportData(db, codes, fails);
      if data == [] then Fail(NOT_FOUND)
      else
        match request.format
        case Null => Fail(SERVER_ERROR)
        case Absent => Ok(Records(now, |data|, data))
        case Text(f) =>
          if Lower(f) == JSON then Ok(Records(now, |data|, data))
          else if Lower(f) == CSV then Ok(Csv(csvOf(data)))
          else Fail(BAD_REQUEST)
  }

  /** The letter case of the format never changes the answer. */
  lemma FormatCaseInsensitive(db: Db, codes: seq<string>, f: string, g: string, maxRecords: nat, now: int,
                              csvOf: seq<ExportRow> -> string, fails: bool)
    requires Lower(f) == Lower(g)
    ensures ExportData(db, ExportRequest(codes, Text(f)), maxRecords, now, csvOf, fails)
         == ExportData(db, ExportRequest(codes, Text(g)), maxRecords, now, csvOf, fails)
  {
  }

  // ---------------------------------------------------------------- export_all_data: the filters

  /** Python truthiness of an optional query parameter: present and not empty. */
  predicate Given(o: Option<string>) {
    o.Some? && o.value != ""
  }

  const CAMPAIGN_COLUMN: string := "u.campaign_name = "
  const START_PREFIX: string := "DATE(u.created_at) >= "
  const END_PREFIX: string := "DATE(u.created_at) <= "
  const CAMPAIGN_CONDITION: string := CAMPAIGN_COLUMN + "?"
  const START_CONDITION: string := START_PREFIX + "?"
  const END_CONDITION: string := END_PREFIX + "?"
  const AND: string := " AND "

  /** The condition text a parameter contributes: one, when the parameter is given. */
  function ConditionIf(o: Option<string>, condition: string): seq<string> {
    if Given(o) then [condition] else []
  }

  /** The bound value a parameter contributes: its text, when it is given. */
  function ParamIf(o: Option<string>): seq<string> {
    if Given(o) then [o.value] else []
  }

  /** The text `base_query` gains before `GROUP BY`: nothing, or `" AND "` and the joined conditions. */
  function WhereSuffix(conditions: seq<string>): string {
    if conditions == [] then "" else AND + Join(conditions, AND)
  }

  lemma {:induction false} CountCharAbsent(s: string, c: char)
    requires forall i | 0 <= i < |s| :: s[i] != c
    ensures CountChar(s, c) == 0
  {
    if s != [] {
      CountCharAbsent(s[1..], c);
    }
  }

  /** A text with no `?` before its final `?` holds exactly one. */
  lemma OneMark(prefix: string)
    requires forall i | 0 <= i < |prefix| :: prefix[i] != '?'
    ensures CountChar(prefix + "?", '?') == 1
  {
    CountCharAbsent(prefix, '?');
    CountCharConcat(prefix, "?", '?');
  }

  /** Every condition text holds exactly one `?`, and the separator none. */
  lemma ConditionMarks()
    ensures CountChar(CAMPAIGN_CONDITION, '?') == 1
    ensures CountChar(START_CONDITION, '?') == 1
    ensures CountChar(END_CONDITION, '?') == 1
    ensures CountChar(AND, '?') == 0
  {
    OneMark(CAMPAIGN_COLUMN);
    OneMark(START_PREFIX);
    OneMark(END_PREFIX);
    CountCharAbsent(AND, '?');
  }

  lemma {:induction false} SumCountsOnes(parts: seq<string>, c: char)
    requires forall p | p in parts :: CountChar(p, c) == 1
    ensures SumCounts(parts, c) == |parts|
  {
    if parts != [] {
      assert forall p | p in parts[1..] :: p in parts;
      SumCountsOnes(parts[1..], c);
    }
  }

  /**
   * The `conditions` and `params` lists: the campaign, start-date and end-date conditions, in
   * that order, each only when its parameter is given, with one bound value per `?` placed.
   */
  method BuildFilters(campaign: Option<string>, startDate: Option<string>, endDate: Option<string>)
    returns (conditions: seq<string>, params: seq<string>)
    ensures conditions == ConditionIf(campaign, CAMPAIGN_CONDITION) + ConditionIf(startDate, START_CONDITION)
                          + ConditionIf(endDate, END_CONDITION)
    ensures params == ParamIf(campaign) + ParamIf(startDate) + ParamIf(endDate)
    ensures CountChar(WhereSuffix(conditions), '?') == |params|
  {
    conditions := [];
    params := [];
    if Given(campaign) {
      conditions := conditions + [CAMPAIGN_CONDITION];
      params := params + [campaign.value];
    }
    if Given(startDate) {
      conditions := conditions + [START_CONDITION];
      params := params + [startDate.value];
    }
    if Given(endDate) {
      conditions := conditions + [END_CONDITION];
      params := params + [endDate.value];
    }
    WhereSuffixMarks(conditions);
  }

  /** The text a list of conditions adds holds one `?` per condition. */
  lemma WhereSuffixMarks(conditions: seq<string>)
    requires forall c | c in conditions :: c in {CAMPAIGN_CONDITION, START_CONDITION, END_CONDITION}
    ensures CountChar(WhereSuffix(conditions), '?') == |conditions|
  {
    if conditions != [] {
      ConditionMarks();
      SumCountsOnes(conditions, '?');
      CountCharJoin(conditions, AND, '?');
      CountCharConcat(AND, Join(conditions, AND), '?');
    }
  }

  /** `','.join(['?' for _ in codes])`: the `IN (...)` list for `n` codes. */
  function Placeholders(n: nat): (p: string)
    ensures CountChar(p, '?') == n
    ensures n > 0 ==> CountChar(p, ',') == n - 1
    ensures |p| == if n == 0 then 0 else 2 * n - 1
  {
    var marks := seq(n, _ => "?");
    PlaceholdersFacts(n);
    Join(marks, ",")
  }

  lemma {:induction false} PlaceholdersFacts(n: nat)
    ensures CountChar(Join(seq(n, _ => "?"), ","), '?') == n
    ensures n > 0 ==> CountChar(Join(seq(n, _ => "?"), ","), ',') == n - 1
    ensures |Join(seq(n, _ => "?"), ",")| == if n == 0 then 0 else 2 * n - 1
  {
    if n > 1 {
      var marks := seq(n, _ => "?");
      assert marks[1..] == seq(n - 1, _ => "?");
      PlaceholdersFacts(n - 1);
      assert Join(marks, ",") == "?" + "," + Join(marks[1..], ",");
      CountCharConcat("?" + ",", Join(marks[1..], ","), '?');
      CountCharConcat("?" + ",", Join(marks[1..], ","), ',');
    } else if n == 1 {
      assert seq(n, _ => "?") == ["?"];
    }
  }

  // ---------------------------------------------------------------- export_all_data: the queries

  /**
   * The query the filters describe: active rows, of the given campaign, created on or after
   * the start day and on or before the end day. `dayOf` reads a `YYYY-MM-DD` parameter as a
   * day number.
   */
  function Selected(campaign: Option<string>, startDate: Option<string>, endDate: Option<string>,
                    dayOf: string -> int): UrlRow -> bool {
    (u: UrlRow) =>
      && u.isActive
      && (Given(campaign) ==> u.campaignName == Some(campaign.value))
      && (Given(startDate) ==> Day(u.createdAt) >= dayOf(startDate.value))
      && (Given(endDate) ==> Day(u.createdAt) <= dayOf(endDate.value))
  }

  /** One row of the clicks export. */
  datatype ClickExport = ClickExport(shortCode: string, ipAddress: Option<string>, userAgent: Option<string>,
                                     referrer: Option<string>, source: string, clickedAt: int)

  /** `SELECT ... FROM urls WHERE id = ?`, the first matching row. */
  function FindById(urls: seq<UrlRow>, id: nat): (r: Option<UrlRow>)
    ensures r.Some? ==> r.value in urls && r.value.id == id
    ensures r.None? <==> !HasId(urls, id)
  {
    if urls == [] then None
    else if urls[0].id == id then Some(urls[0])
    else
      assert forall i | 1 <= i < |urls| :: urls[i] == urls[1..][i - 1];
      FindById(urls[1..], id)
  }

  /** `JOIN urls u ON c.url_id = u.id WHERE u.short_code IN (...)`. */
  function JoinsChosen(urls: seq<UrlRow>, codes: seq<string>): ClickRow -> bool {
    (c: ClickRow) => FindById(urls, c.urlId).Some? && FindById(urls, c.urlId).value.shortCode in codes
  }

  function ExportClickOf(urls: seq<UrlRow>): ClickRow -> ClickExport {
    (c: ClickRow) =>
      ClickExport(FindById(urls, c.urlId).GetOr(UrlRow(0, "", "", None, None, 0, false)).shortCode,
                  c.ipAddress, c.userAgent, c.referrer, c.source, c.clickedAt)
  }

  function ExportClickedAt(e: ClickExport): int { e.clickedAt }

  /** The clicks of the links with the given codes, joined with their code, newest first. */
  function ClickRowsFor(db: Db, codes: seq<string>): seq<ClickExport> {
    SortDesc(Analytics.Map(Filter(db.clicks, JoinsChosen(db.urls, codes)), ExportClickOf(db.urls)), ExportClickedAt)
  }

  /**
   * The clicks export is newest first; each of its rows is a click of a link with one of the
   * codes, under that code; and every such click is in it.
   */
  lemma ClickRowsForFacts(db: Db, codes: seq<string>)
    ensures SortedDesc(ClickRowsFor(db, codes), ExportClickedAt)
    ensures forall e | e in ClickRowsFor(db, codes) :: exists c | c in db.clicks ::
      && JoinsChosen(db.urls, codes)(c)
      && e == ExportClickOf(db.urls)(c)
      && e.shortCode == FindById(db.urls, c.urlId).value.shortCode
      && e.shortCode in codes
    ensures forall c | c in db.clicks && JoinsChosen(db.urls, codes)(c) :: ExportClickOf(db.urls)(c) in ClickRowsFor(db, codes)
  {
    var joined := Filter(db.clicks, JoinsChosen(db.urls, codes));
    var mapped := Analytics.Map(joined, ExportClickOf(db.urls));
    SortDescSorted(mapped, ExportClickedAt);
    forall e | e in ClickRowsFor(db, codes) ensures exists c | c in db.clicks ::
      && JoinsChosen(db.urls, codes)(c)
      && e == ExportClickOf(db.urls)(c)
      && e.shortCode == FindById(db.urls, c.urlId).value.shortCode
      && e.shortCode in codes
    {
      SortDescSameElements(mapped, ExportClickedAt, e);
      var i :| 0 <= i < |mapped| && mapped[i] == e;
      assert joined[i] in joined;
    }
    forall c | c in db.clicks && JoinsChosen(db.urls, codes)(c) ensures ExportClickOf(db.urls)(c) in ClickRowsFor(db, codes) {
      var i :| 0 <= i < |joined| && joined[i] == c;
      assert mapped[i] == ExportClickOf(db.urls)(c);
      SortDescSameElements(mapped, ExportClickedAt, ExportClickOf(db.urls)(c));
    }
  }

  function CodeOf(r: ExportRow): string { r.shortCode }

  /**
   * `export_all_data`: the filtered rows and, when `include_clicks` is set and there is at
   * least one row, their clicks. Its `except Exception` also catches its own 400 for an
   * unsupported format, so every failure, a query error included, is 500.
   */
  function ExportAllData(db: Db, format: string, campaign: Option<string>, startDate: Option<string>,
                         endDate: Option<string>, includeClicks: bool, dayOf: string -> int, now: int,
                         csvOf: seq<ExportRow> -> string, fails: bool): (r: Result<Export>)
    ensures r.Fail? ==> r.status == SERVER_ERROR
    ensures r.Fail? <==> fails || !Supported(format)
    ensures r.Ok? && Lower(format) == JSON ==>
      var urls := Rows(db, Selected(campaign, startDate, endDate, dayOf));
      && r.value.Everything?
      && r.value.urls == urls
      && r.value.totalRecords == |urls|
      && (r.value.campaign, r.value.startDate, r.value.endDate, r.value.includeClicks)
         == (campaign, startDate, endDate, includeClicks)
      && (r.value.clicks.Some? <==> includeClicks && urls != [])
      && (r.value.clicks.Some? ==> r.value.clicks.value == ClickRowsFor(db, Analytics.Map(urls, CodeOf)))
    ensures r.Ok? && Lower(format) == CSV ==>
      r.value == Csv(csvOf(Rows(db, Selected(campaign, startDate, endDate, dayOf))))
  {
    if fails then Fail(SERVER_ERROR)
    else
      var urls := Rows(db, Selected(campaign, startDate, endDate, dayOf));
      var clicks := if includeClicks && urls != [] then Some(ClickRowsFor(db, Analytics.Map(urls, CodeOf))) else None;
      if Lower(format) == JSON then
        Ok(Everything(now, |urls|, campaign, startDate, endDate, includeClicks, urls, clicks))
      else if Lower(format) == CSV then Ok(Csv(csvOf(urls)))
      else Fail(SERVER_ERROR)
  }

  /**
   * A row is exported by `export_all_data` exactly when it is active and meets every given
   * filter; a parameter that is missing or empty filters nothing.
   */
  lemma SelectedFacts(campaign: Option<string>, startDate: Option<string>, endDate: Option<string>,
                      dayOf: string -> int, u: UrlRow)
    ensures !Given(campaign) && !Given(startDate) && !Given(endDate) ==>
      (Selected(campaign, startDate, endDate, dayOf)(u) <==> u.isActive)
    ensures Selected(campaign, startDate, endDate, dayOf)(u) ==> u.isActive
    ensures Given(campaign) && Selected(campaign, startDate, endDate, dayOf)(u) ==> u.campaignName == Some(campaign.value)
  {
  }

  // ---------------------------------------------------------------- export_analytics_data

  const PERIOD_7D: string := "7d"
  const PERIOD_30D: string := "30d"

  /** The look-back of a period in days: 7 for "7d", 30 for "30d", none for anything else. */
  function PeriodDays(period: string): (n: Option<int>)
    ensures n.Some? <==> period == PERIOD_7D || period == PERIOD_30D
  {
    if period == PERIOD_7D then Some(7)
    else if period == PERIOD_30D then Some(30)
    else None
  }

  /** The `date_filter`: `DATE(clicked_at) >= DATE('now', '-n days')`, or nothing. */
  function InPeriod(period: string, today: int): ClickRow -> bool {
    (c: ClickRow) => PeriodDays(period).None? || Day(c.clickedAt) >= today - PeriodDays(period).value
  }

  /** The clicks a period keeps. */
  function PeriodClicks(clicks: seq<ClickRow>, urlId: nat, period: string, today: int): seq<ClickRow> {
    Filter(ClicksOf(clicks, urlId), InPeriod(period, today))
  }

  /**
   * An unrecognised period keeps every click of the link; "7d" and "30d" keep exactly the
   * link's clicks on or after the day that many days before today.
   */
  lemma PeriodClicksFacts(clicks: seq<ClickRow>, urlId: nat, period: string, today: int)
    ensures PeriodDays(period).None? ==> PeriodClicks(clicks, urlId, period, today) == ClicksOf(clicks, urlId)
    ensures PeriodDays(period).Some? ==> forall c ::
      c in PeriodClicks(clicks, urlId, period, today) <==>
        c in clicks && c.urlId == urlId && Day(c.clickedAt) >= today - PeriodDays(period).value
  {
    if PeriodDays(period).None? {
      FilterAll(ClicksOf(clicks, urlId), InPeriod(period, today));
    }
  }

  /** One row of the click list, with its `DATE(clicked_at)` and its hour of the day. */
  datatype ClickDetail = ClickDetail(click: ClickRow, clickDate: int, clickHour: int)

  /** `strftime('%H', clicked_at)`: the hour within the day. */
  function HourOfDay(t: int): (h: int)
    ensures 0 <= h < 24
  {
    (t % SECONDS_PER_DAY) / SECONDS_PER_HOUR
  }

  function DetailOf(c: ClickRow): ClickDetail {
    ClickDetail(c, Day(c.clickedAt), HourOfDay(c.clickedAt))
  }

  /** The statistics query over the period's clicks. */
  datatype PeriodStats = PeriodStats(totalClicks: nat, uniqueVisitors: nat, qrClicks: nat,
                                     firstClick: Option<int>, lastClick: Option<int>)

  function PeriodStatsOf(cs: seq<ClickRow>): (s: PeriodStats)
    ensures s.totalClicks == |cs|
    ensures s.uniqueVisitors == |IpSet(cs)| <= |cs|
    ensures s.qrClicks == |Filter(cs, WithSource(QR_CODE_SOURCE))| <= |cs|
    ensures s.firstClick.None? <==> cs == []
    ensures s.lastClick.None? <==> cs == []
    ensures cs != [] ==> s.firstClick.value <= s.lastClick.value
  {
    UniqueVisitorsAtMostClicks(cs);
    UniqueVisitorsIsDistinctCount(cs);
    var first := MinClickedAt(cs);
    var last := MaxClickedAt(cs);
    assert cs != [] ==> first.value <= cs[0].clickedAt <= last.value;
    PeriodStats(|cs|, UniqueVisitors(cs), CountSource(cs, QR_CODE_SOURCE), first, last)
  }

  /**
   * `export_analytics_data`: 404 when no row (active or not) has the code; otherwise the
   * period's clicks newest first, their statistics and their per-source counts, as JSON or as
   * CSV of the click list; any other format is 400, and a query error is 500.
   */
  function ExportAnalyticsData(db: Db, code: string, format: string, period: string, today: int, now: int,
                               csvOf: seq<ClickDetail> -> string, fails: bool): (r: Result<Export>)
    ensures r == Fail(SERVER_ERROR) <==> fails
    ensures r == Fail(NOT_FOUND) <==> !fails && !HasCode(db.urls, code)
    ensures r == Fail(BAD_REQUEST) <==> !fails && HasCode(db.urls, code) && !Supported(format)
    ensures r.Ok? && Lower(format) == JSON ==>
      && r.value.UrlAnalytics?
      && r.value.urlInfo == FindByCode(db.urls, code).value
      && r.value.period == period
      && var cs := PeriodClicks(db.clicks, r.value.urlInfo.id, period, today);
         && r.value.clickRows == Analytics.Map(NewestFirst(cs), DetailOf)
         && r.value.statistics == PeriodStatsOf(cs)
         && r.value.sourceBreakdown == RankedCounts(Analytics.Map(cs, Analytics.Source))
    ensures r.Ok? && Lower(format) == CSV ==>
      var cs := PeriodClicks(db.clicks, FindByCode(db.urls, code).value.id, period, today);
      r.value == Csv(csvOf(Analytics.Map(NewestFirst(cs), DetailOf)))
    ensures r.Ok? ==> Lower(format) == JSON || Lower(format) == CSV
  {
    if fails then Fail(SERVER_ERROR)
    else
      match FindByCode(db.urls, code)
      case None => Fail(NOT_FOUND)
      case Some(u) =>
        var cs := PeriodClicks(db.clicks, u.id, period, today);
        var details := Analytics.Map(NewestFirst(cs), DetailOf);
        if Lower(format) == JSON then
          Ok(UrlAnalytics(u, period, now, PeriodStatsOf(cs), RankedCounts(Analytics.Map(cs, Analytics.Source)), details))
        else if Lower(format) == CSV then Ok(Csv(csvOf(details)))
        else Fail(BAD_REQUEST)
  }

  /** The click list of the analytics export is newest first and holds every kept click once. */
  lemma ClickListFacts(cs: seq<ClickRow>)
    ensures var rows := Analytics.Map(NewestFirst(cs), DetailOf);
      && |rows| == |cs|
      && (forall i, j | 0 <= i < j < |rows| :: rows[i].click.clickedAt >= rows[j].click.clickedAt)
      && multiset(Analytics.Map(rows, (d: ClickDetail) => d.click)) == multiset(cs)
  {
    var sorted := NewestFirst(cs);
    var rows := Analytics.Map(sorted, DetailOf);
    SortDescSorted(cs, ClickedAt);
    forall i, j | 0 <= i < j < |rows| ensures rows[i].click.clickedAt >= rows[j].click.clickedAt {
      assert ClickedAt(sorted[i]) >= ClickedAt(sorted[j]);
    }
    assert Analytics.Map(rows, (d: ClickDetail) => d.click) == sorted;
  }
}

/**
 * The admin dashboard (`GET /admin`): headline counts and the table of the 100 newest active
 * links with their click counts; and the QR page of one link (`GET /qr/{short_code}`).
 */
module Admin {
  import opened Wrappers
  import opened Ordering
  import opened Tables
  import Redirect

  // ---------------------------------------------------------------- admin_dashboard

  /** The four headline figures. */
  datatype Stats = Stats(totalUrls: nat, activeUrls: nat, totalClicks: nat, todayClicks: nat)

  function ClickDayIs(today: int): ClickRow -> bool {
    (c: ClickRow) => Day(c.clickedAt) == today
  }

  /**
   * The four `COUNT(*)` queries. The "total" query has the same `WHERE is_active = TRUE` as
   * the "active" one.
   */
  function DashboardStats(db: Db, today: int): (s: Stats)
    ensures s.totalUrls == s.activeUrls == ActiveCount(db.urls) <= |db.urls|
    ensures s.totalClicks == |db.clicks|
    ensures s.todayClicks == |Filter(db.clicks, ClickDayIs(today))| <= s.totalClicks
  {
    Stats(ActiveCount(db.urls), ActiveCount(db.urls), |db.clicks|, |Filter(db.clicks, ClickDayIs(today))|)
  }

  /** One row of the listing query. */
  datatype DashboardRow = DashboardRow(
    shortCode: string,
    originalUrl: string,
    customName: Option<string>,
    campaignName: Option<string>,
    createdAt: int,
    clicks: nat,
    unique: nat,
    qrClicks: nat)

  const LISTING_LIMIT: nat := 100

  /**
   * The per-link counts of the joined sub-query, `COALESCE`d to 0: its QR column counts
   * `source = 'qr'`.
   */
  function RowOf(clicks: seq<ClickRow>, u: UrlRow): DashboardRow {
    var cs := ClicksOf(clicks, u.id);
    DashboardRow(u.shortCode, u.originalUrl, u.customName, u.campaignName, u.createdAt,
                 |cs|, UniqueVisitors(cs), CountSource(cs, Redirect.ADMIN_QR_SOURCE))
  }

  /** `WHERE u.is_active = TRUE ORDER BY u.created_at DESC LIMIT 100`. */
  function DashboardRows(db: Db): seq<DashboardRow> {
    var urls := Take(ActiveNewestFirst(db.urls), LISTING_LIMIT);
    seq(|urls|, i requires 0 <= i < |urls| => RowOf(db.clicks, urls[i]))
  }

  function RowCreatedAt(r: DashboardRow): int { r.createdAt }

  /**
   * The listing is the rows of the first 100 active links, newest first: all of them when there
   * are no more than 100, and no link left out is newer than one listed. Each row carries its
   * link's exact click count and at most that many distinct addresses and QR clicks.
   */
  lemma DashboardRowsFacts(db: Db)
    ensures var rows := DashboardRows(db); var sorted := ActiveNewestFirst(db.urls);
      && |rows| == (if ActiveCount(db.urls) <= LISTING_LIMIT then ActiveCount(db.urls) else LISTING_LIMIT)
      && (forall i | 0 <= i < |rows| :: rows[i] == RowOf(db.clicks, sorted[i]))
      && SortedDesc(rows, RowCreatedAt)
      && (forall i, k | 0 <= i < |rows| <= k < |sorted| :: rows[i].createdAt >= sorted[k].createdAt)
      && (forall r | r in rows :: exists u | u in db.urls :: u.isActive && r == RowOf(db.clicks, u))
      && (forall r | r in rows :: r.unique <= r.clicks && r.qrClicks <= r.clicks)
      && (ActiveCount(db.urls) <= LISTING_LIMIT ==> forall u | u in db.urls && u.isActive :: RowOf(db.clicks, u) in rows)
  {
    DashboardRowsPrefix(db);
    DashboardRowsNewest(db);
    DashboardRowsActive(db);
    DashboardRowsAll(db);
  }

  /** The rows are those of the first 100 active links in newest-first order. */
  lemma DashboardRowsPrefix(db: Db)
    ensures var rows := DashboardRows(db); var sorted := ActiveNewestFirst(db.urls);
      && |rows| == (if ActiveCount(db.urls) <= LISTING_LIMIT then ActiveCount(db.urls) else LISTING_LIMIT)
      && (forall i | 0 <= i < |rows| :: rows[i] == RowOf(db.clicks, sorted[i]))
  {
    var sorted := ActiveNewestFirst(db.urls);
    ActiveNewestFirstFacts(db.urls);
    assert |sorted| == ActiveCount(db.urls) by {
      assert |multiset(sorted)| == |multiset(Filter(db.urls, IsActive))|;
    }
  }

  /** With at most 100 active links, every one of them is listed. */
  lemma DashboardRowsAll(db: Db)
    ensures ActiveCount(db.urls) <= LISTING_LIMIT ==>
      forall u | u in db.urls && u.isActive :: RowOf(db.clicks, u) in DashboardRows(db)
  {
    var sorted := ActiveNewestFirst(db.urls);
    var urls := Take(sorted, LISTING_LIMIT);
    var rows := DashboardRows(db);
    DashboardRowsPrefix(db);
    ActiveNewestFirstFacts(db.urls);
    if ActiveCount(db.urls) <= LISTING_LIMIT {
      forall u | u in db.urls && u.isActive ensures RowOf(db.clicks, u) in rows {
        var i :| 0 <= i < |urls| && urls[i] == u;
        assert rows[i] == RowOf(db.clicks, u);
      }
    }
  }

  /** Every listed row is an active link's, with no more distinct addresses or QR clicks than clicks. */
  lemma DashboardRowsActive(db: Db)
    ensures forall r | r in DashboardRows(db) ::
      && (exists u | u in db.urls :: u.isActive && r == RowOf(db.clicks, u))
      && r.unique <= r.clicks && r.qrClicks <= r.clicks
  {
    var sorted := ActiveNewestFirst(db.urls);
    var urls := Take(sorted, LISTING_LIMIT);
    var rows := DashboardRows(db);
    ActiveNewestFirstFacts(db.urls);
    forall r | r in rows ensures (exists u | u in db.urls :: u.isActive && r == RowOf(db.clicks, u)) && r.unique <= r.clicks {
      var i :| 0 <= i < |rows| && rows[i] == r;
      assert urls[i] in sorted;
      UniqueVisitorsAtMostClicks(ClicksOf(db.clicks, urls[i].id));
    }
  }

  /** The listed rows are in creation order, and none is older than a link left out. */
  lemma DashboardRowsNewest(db: Db)
    ensures var rows := DashboardRows(db); var sorted := ActiveNewestFirst(db.urls);
      && SortedDesc(rows, RowCreatedAt)
      && forall i, k | 0 <= i < |rows| <= k < |sorted| :: rows[i].createdAt >= sorted[k].createdAt
  {
    var sorted := ActiveNewestFirst(db.urls);
    var urls := Take(sorted, LISTING_LIMIT);
    var rows := DashboardRows(db);
    ActiveNewestFirstFacts(db.urls);
    forall i, j | 0 <= i < j < |rows| ensures RowCreatedAt(rows[i]) >= RowCreatedAt(rows[j]) {
      assert urls[i] == sorted[i] && urls[j] == sorted[j];
      assert CreatedAt(sorted[i]) >= CreatedAt(sorted[j]);
    }
    forall i, k | 0 <= i < |rows| <= k < |sorted| ensures rows[i].createdAt >= sorted[k].createdAt {
      assert urls[i] == sorted[i];
      assert CreatedAt(sorted[i]) >= CreatedAt(sorted[k]);
    }
  }

  /**
   * The QR column counts source 'qr', which the redirect path never writes: on a clicks table
   * it has filled, every row shows 0 QR clicks.
   */
  lemma QrColumnAlwaysZero(db: Db)
    requires Redirect.NoAdminQrSource(db.clicks)
    ensures forall r | r in DashboardRows(db) :: r.qrClicks == 0
  {
    forall r | r in DashboardRows(db) ensures r.qrClicks == 0 {
      var rows := DashboardRows(db);
      var urls := Take(ActiveNewestFirst(db.urls), LISTING_LIMIT);
      var i :| 0 <= i < |rows| && rows[i] == r;
      var cs := ClicksOf(db.clicks, urls[i].id);
      CountSourceAbsent(cs, Redirect.ADMIN_QR_SOURCE);
    }
  }

  const DISPLAY_LIMIT: nat := 50
  const ELLIPSIS: string := "..."

  /** `original_url[:50] + "..." if len(original_url) > 50 else original_url`. */
  function DisplayUrl(url: string): (d: string)
  {
    if |url| > DISPLAY_LIMIT then url[..DISPLAY_LIMIT] + ELLIPSIS else url
  }

  /**
   * A URL of at most 50 characters is shown whole; a longer one as its first 50 characters and
   * "...", so the shown text never exceeds 53 characters and always starts with the URL's
   * own first characters.
   */
  lemma DisplayUrlFacts(url: string)
    ensures |url| <= DISPLAY_LIMIT ==> DisplayUrl(url) == url
    ensures |url| > DISPLAY_LIMIT ==>
      && |DisplayUrl(url)| == DISPLAY_LIMIT + |ELLIPSIS|
      && DisplayUrl(url)[..DISPLAY_LIMIT] == url[..DISPLAY_LIMIT]
      && DisplayUrl(url)[DISPLAY_LIMIT..] == ELLIPSIS
    ensures |DisplayUrl(url)| <= DISPLAY_LIMIT + |ELLIPSIS|
  {
  }

  /** Shortening a shown URL again changes nothing. */
  lemma DisplayUrlIdempotent(url: string)
    ensures DisplayUrl(DisplayUrl(url)) == DisplayUrl(url)
  {
    if |url| > DISPLAY_LIMIT {
      assert DisplayUrl(url)[..DISPLAY_LIMIT] == url[..DISPLAY_LIMIT];
    }
  }

  /** One rendered row of the table: the query row, its public address and its shown URL. */
  datatype TableRow = TableRow(row: DashboardRow, shortUrl: string, displayUrl: string)

  /** The `table_rows +=` loop, one rendered row per query row, in order. */
  method BuildTableRows(rows: seq<DashboardRow>, baseUrl: string) returns (table: seq<TableRow>)
    ensures |table| == |rows|
    ensures forall i | 0 <= i < |rows| ::
      table[i] == TableRow(rows[i], ShortUrl(baseUrl, rows[i].shortCode), DisplayUrl(rows[i].originalUrl))
  {
    table := [];
    for i := 0 to |rows|
      invariant |table| == i
      invariant forall k | 0 <= k < i ::
        table[k] == TableRow(rows[k], ShortUrl(baseUrl, rows[k].shortCode), DisplayUrl(rows[k].originalUrl))
    {
      var shortUrl := ShortUrl(baseUrl, rows[i].shortCode);
      var displayUrl := DisplayUrl(rows[i].originalUrl);
      table := table + [TableRow(rows[i], shortUrl, displayUrl)];
    }
  }

  /** The dashboard page's content. */
  datatype Dashboard = Dashboard(stats: Stats, table: seq<TableRow>)

  /**
   * The key `str.format` fails on: the first replacement field of the template that is not
   * among the keyword arguments, or none when every field has a value.
   */
  function FirstMissingField(fields: seq<string>, keys: set<string>): (r: Option<string>)
    ensures r.None? <==> forall i | 0 <= i < |fields| :: fields[i] in keys
    ensures r.Some? ==> exists i | 0 <= i < |fields| ::
      fields[i] == r.value && r.value !in keys && forall k | 0 <= k < i :: fields[k] in keys
  {
    if fields == [] then None
    else if fields[0] !in keys then Some(fields[0])
    else
      var rest := FirstMissingField(fields[1..], keys);
      assert rest.Some? ==> exists i | 0 <= i < |fields| ::
        fields[i] == rest.value && rest.value !in keys && forall k | 0 <= k < i :: fields[k] in keys by {
        if rest.Some? {
          var i :| 0 <= i < |fields[1..]| && fields[1..][i] == rest.value && rest.value !in keys
            && forall k | 0 <= k < i :: fields[1..][k] in keys;
          assert fields[i + 1] == rest.value;
        }
      }
      rest
  }

  /**
   * Filling a template: the content when every field has a value; otherwise the `KeyError`,
   * which `admin_dashboard` catches and answers with its 500 page.
   */
  function FillTemplate<T>(fields: seq<string>, keys: set<string>, content: T): (r: Result<T>)
    ensures r.Ok? <==> FirstMissingField(fields, keys).None?
    ensures r.Ok? ==> r.value == content
    ensures r.Fail? ==> r.status == SERVER_ERROR
  {
    if FirstMissingField(fields, keys).None? then Ok(content) else Fail(SERVER_ERROR)
  }

  /**
   * The first replacement fields `str.format` meets in the page template. The template's CSS
   * rules are written with single braces, so each rule reads as a field named by the text
   * between its opening brace and the colon of its first declaration.
   */
  const BODY_RULE_FIELD: string := " \n            font-family"
  const ADMIN_TEMPLATE_FIELDS: seq<string> := [BODY_RULE_FIELD, " \n            max-width", " \n            color"]

  /** The keyword arguments `admin_dashboard` passes to `format`. */
  const ADMIN_FORMAT_KEYWORDS: set<string> :=
    {"total_urls", "total_clicks", "today_clicks", "active_urls", "table_rows", "base_url", "last_updated"}

  /** Filling the page template raises `KeyError` on its first CSS rule. */
  lemma AdminTemplateRaises()
    ensures FirstMissingField(ADMIN_TEMPLATE_FIELDS, ADMIN_FORMAT_KEYWORDS) == Some(BODY_RULE_FIELD)
  {
    assert BODY_RULE_FIELD !in ADMIN_FORMAT_KEYWORDS;
  }

  /**
   * `admin_dashboard`: the four figures and the table are computed, and then filling the page
   * template raises, so every request ends in the 500 error page, as does a query that raises.
   */
  method AdminDashboard(db: Db, today: int, baseUrl: string, fails: bool) returns (r: Result<Dashboard>)
    ensures r == Fail(SERVER_ERROR)
  {
    if fails {
      return Fail(SERVER_ERROR);
    }
    var table := BuildTableRows(DashboardRows(db), baseUrl);
    var content := Dashboard(DashboardStats(db, today), table);
    AdminTemplateRaises();
    r := FillTemplate(ADMIN_TEMPLATE_FIELDS, ADMIN_FORMAT_KEYWORDS, content);
  }

  // ---------------------------------------------------------------- qr_code_page

  /** The suffix the QR target carries. */
  const QR_QUERY: string := "?source=qr"

  /** `f"{BASE_URL}/{short_code}?source=qr"`. */
  function QrUrl(baseUrl: string, code: string): (u: string)
    ensures |u| == |baseUrl| + 1 + |code| + |QR_QUERY|
    ensures u[..|baseUrl| + 1 + |code|] == ShortUrl(baseUrl, code)
    ensures u[|baseUrl| + 1 + |code|..] == QR_QUERY
  {
    ShortUrl(baseUrl, code) + QR_QUERY
  }

  /** The QR page's content; the image itself is not part of this model. */
  datatype QrPage = QrPage(shortCode: string, originalUrl: string, customName: Option<string>,
                           campaignName: Option<string>, qrUrl: string)

  /** `SELECT ... FROM urls WHERE short_code = ? AND is_active = TRUE`. */
  function FindActive(urls: seq<UrlRow>, code: string): (r: Option<UrlRow>)
    ensures r.Some? ==> r.value in urls && r.value.isActive && r.value.shortCode == code
    ensures r.None? <==> forall u | u in urls :: !(u.isActive && u.shortCode == code)
  {
    var r := FindByCode(Filter(urls, IsActive), code);
    assert r.None? ==> forall u | u in urls :: !(u.isActive && u.shortCode == code) by {
      if r.None? {
        forall u | u in urls && u.isActive ensures u.shortCode != code {
          var active := Filter(urls, IsActive);
          var i :| 0 <= i < |active| && active[i] == u;
        }
      }
    }
    r
  }

  /**
   * `qr_code_page`: 404 for a code that no active row has (unknown or deactivated); 500 when
   * the query or the image generation raises; otherwise the row's fields and the QR target.
   */
  function QrCodePage(db: Db, code: string, baseUrl: string, fails: bool, imageFails: bool): (r: Result<QrPage>)
    ensures r == Fail(NOT_FOUND) <==> !fails && forall u | u in db.urls :: !(u.isActive && u.shortCode == code)
    ensures r.Ok? <==> !fails && !imageFails && exists u | u in db.urls :: u.isActive && u.shortCode == code
    ensures r.Ok? ==> exists u | u in db.urls ::
      && u.isActive && u.shortCode == code
      && r.value == QrPage(code, u.originalUrl, u.customName, u.campaignName, QrUrl(baseUrl, code))
  {
    if fails then Fail(SERVER_ERROR)
    else
      match FindActive(db.urls, code)
      case None => Fail(NOT_FOUND)
      case Some(u) =>
        if imageFails then Fail(SERVER_ERROR)
        else Ok(QrPage(code, u.originalUrl, u.customName, u.campaignName, QrUrl(baseUrl, code)))
  }
}

/**
 * The two tables of the link store (`urls` and `clicks`), a read-only snapshot of both,
 * and the per-link aggregates that the analytics, dashboard and export queries share.
 * Timestamps are whole seconds; SQLite's `DATE(t)` is the day number `t / 86400`.
 */
module Tables {
  import opened Wrappers
  import opened Ordering

  const SECONDS_PER_HOUR: int := 3600
  const SECONDS_PER_DAY: int := 86400

  /** `DATE(t)`, as a day number. */
  function Day(t: int): int { t / SECONDS_PER_DAY }

  /** The hour a timestamp falls in (date and hour together), as an hour number. */
  function Hour(t: int): int { t / SECONDS_PER_HOUR }

  /** One row of `urls`. `is_active` defaults to true on insert. */
  datatype UrlRow = UrlRow(
    id: nat,
    shortCode: string,
    originalUrl: string,
    customName: Option<string>,
    campaignName: Option<string>,
    createdAt: int,
    isActive: bool)

  /** One row of `clicks`; `source` is never written as NULL by any insert of the system. */
  datatype ClickRow = ClickRow(
    id: nat,
    urlId: nat,
    ipAddress: Option<string>,
    userAgent: Option<string>,
    referrer: Option<string>,
    source: string,
    clickedAt: int)

  /** The schema default of `clicks.source`. */
  const DEFAULT_SOURCE: string := "direct"

  /** `f"{config.BASE_URL}/{short_code}"`, the public address of a link. */
  function ShortUrl(baseUrl: string, code: string): (u: string)
    ensures |u| == |baseUrl| + 1 + |code|
    ensures u[..|baseUrl|] == baseUrl && u[|baseUrl|] == '/' && u[|baseUrl| + 1..] == code
  {
    baseUrl + "/" + code
  }

  /** A read-only view of both tables, as the query routes see them. */
  datatype Db = Db(urls: seq<UrlRow>, clicks: seq<ClickRow>)

  /** `SELECT 1 FROM urls WHERE short_code = ?` returns a row, active or not. */
  predicate HasCode(urls: seq<UrlRow>, code: string) {
    exists i | 0 <= i < |urls| :: urls[i].shortCode == code
  }

  /** The `UNIQUE` constraint on `urls.short_code`. */
  ghost predicate UniqueCodes(urls: seq<UrlRow>) {
    forall i, j | 0 <= i < j < |urls| :: urls[i].shortCode != urls[j].shortCode
  }

  /** `urls.id` is a primary key. */
  ghost predicate UniqueIds(urls: seq<UrlRow>) {
    forall i, j | 0 <= i < j < |urls| :: urls[i].id != urls[j].id
  }

  /** `SELECT ... FROM urls WHERE short_code = ?`, the first matching row. */
  function FindByCode(urls: seq<UrlRow>, code: string): (r: Option<UrlRow>)
    ensures r.Some? ==> r.value in urls && r.value.shortCode == code
    ensures r.None? <==> !HasCode(urls, code)
  {
    if urls == [] then None
    else if urls[0].shortCode == code then Some(urls[0])
    else
      assert forall i | 1 <= i < |urls| :: urls[i] == urls[1..][i - 1];
      FindByCode(urls[1..], code)
  }

  /** Under the `UNIQUE` constraint the row found is the only row with that code. */
  lemma {:induction false} FindByCodeUnique(urls: seq<UrlRow>, i: nat)
    requires UniqueCodes(urls) && i < |urls|
    ensures FindByCode(urls, urls[i].shortCode) == Some(urls[i])
  {
    if i > 0 {
      assert urls[0].shortCode != urls[i].shortCode;
      FindByCodeUnique(urls[1..], i - 1);
    }
  }

  /** A row exists whose `id` is `id`. */
  predicate HasId(urls: seq<UrlRow>, id: nat) {
    exists i | 0 <= i < |urls| :: urls[i].id == id
  }

  function OfUrl(urlId: nat): ClickRow -> bool {
    (c: ClickRow) => c.urlId == urlId
  }

  /** `SELECT ... FROM clicks WHERE url_id = ?`, in table order. */
  function ClicksOf(clicks: seq<ClickRow>, urlId: nat): seq<ClickRow> {
    Filter(clicks, OfUrl(urlId))
  }

  /** The distinct non-NULL IP addresses among the rows. */
  ghost function IpSet(cs: seq<ClickRow>): set<string> {
    if cs == [] then {}
    else (if cs[0].ipAddress.Some? then {cs[0].ipAddress.value} else {}) + IpSet(cs[1..])
  }

  /** `COUNT(DISTINCT ip_address)`: NULL addresses are not counted. */
  function UniqueVisitors(cs: seq<ClickRow>): (n: nat) {
    if cs == [] then 0
    else if cs[0].ipAddress.Some? && IpIn(cs[0].ipAddress.value, cs[1..]) then UniqueVisitors(cs[1..])
    else if cs[0].ipAddress.Some? then 1 + UniqueVisitors(cs[1..])
    else UniqueVisitors(cs[1..])
  }

  /** Some later row carries this address. */
  predicate IpIn(ip: string, cs: seq<ClickRow>) {
    exists i | 0 <= i < |cs| :: cs[i].ipAddress == Some(ip)
  }

  lemma {:induction false} IpInSet(ip: string, cs: seq<ClickRow>)
    ensures IpIn(ip, cs) <==> ip in IpSet(cs)
  {
    if cs != [] {
      IpInSet(ip, cs[1..]);
      if IpIn(ip, cs) && cs[0].ipAddress != Some(ip) {
        var i :| 0 <= i < |cs| && cs[i].ipAddress == Some(ip);
        assert cs[1..][i - 1].ipAddress == Some(ip);
      }
      if IpIn(ip, cs[1..]) {
        var i :| 0 <= i < |cs[1..]| && cs[1..][i].ipAddress == Some(ip);
        assert cs[i + 1].ipAddress == Some(ip);
      }
    }
  }

  /** `COUNT(DISTINCT ip_address)` is the number of distinct non-NULL addresses. */
  lemma {:induction false} UniqueVisitorsIsDistinctCount(cs: seq<ClickRow>)
    ensures UniqueVisitors(cs) == |IpSet(cs)|
  {
    if cs != [] {
      var rest := cs[1..];
      UniqueVisitorsIsDistinctCount(rest);
      if cs[0].ipAddress.Some? {
        var ip := cs[0].ipAddress.value;
        IpInSet(ip, rest);
        assert IpSet(cs) == {ip} + IpSet(rest);
        if !IpIn(ip, rest) {
          assert |IpSet(cs)| == 1 + |IpSet(rest)|;
        } else {
          assert IpSet(cs) == IpSet(rest);
        }
      } else {
        assert IpSet(cs) == IpSet(rest);
      }
    }
  }

  /** There are never more distinct visitors than clicks. */
  lemma {:induction false} UniqueVisitorsAtMostClicks(cs: seq<ClickRow>)
    ensures UniqueVisitors(cs) <= |cs|
  {
    if cs != [] {
      UniqueVisitorsAtMostClicks(cs[1..]);
    }
  }

  /**
   * One more click from address `ip` adds one visitor exactly when no earlier click of the
   * same rows came from `ip`.
   */
  lemma UniqueVisitorsAppend(cs: seq<ClickRow>, c: ClickRow, ip: string)
    requires c.ipAddress == Some(ip)
    ensures UniqueVisitors(cs + [c]) == UniqueVisitors(cs) + (if IpIn(ip, cs) then 0 else 1)
  {
    UniqueVisitorsIsDistinctCount(cs);
    UniqueVisitorsIsDistinctCount(cs + [c]);
    IpSetConcat(cs, [c]);
    IpInSet(ip, cs);
  }

  lemma {:induction false} IpSetConcat(a: seq<ClickRow>, b: seq<ClickRow>)
    ensures IpSet(a + b) == IpSet(a) + IpSet(b)
  {
    if a == [] {
      assert a + b == b;
    } else {
      assert (a + b)[1..] == a[1..] + b;
      IpSetConcat(a[1..], b);
    }
  }

  function WithSource(source: string): ClickRow -> bool {
    (c: ClickRow) => c.source == source
  }

  /** `COUNT(CASE WHEN source = ? THEN 1 END)`. */
  function CountSource(cs: seq<ClickRow>, source: string): (n: nat)
    ensures n <= |cs|
  {
    |Filter(cs, WithSource(source))|
  }

  /** No row carrying `source` means a count of 0. */
  lemma {:induction false} CountSourceAbsent(cs: seq<ClickRow>, source: string)
    requires forall c | c in cs :: c.source != source
    ensures CountSource(cs, source) == 0
  {
    if cs != [] {
      assert cs[0].source != source;
      assert forall c | c in cs[1..] :: c in cs;
      CountSourceAbsent(cs[1..], source);
    }
  }

  /** The `source` value that the redirect path writes for a QR scanner. */
  const QR_CODE_SOURCE: string := "qr_code"

  function ClickedAt(c: ClickRow): int { c.clickedAt }

  /** `MAX(clicked_at)`, NULL over no rows. */
  function MaxClickedAt(cs: seq<ClickRow>): (m: Option<int>)
    ensures m.None? <==> cs == []
    ensures m.Some? ==> (forall c | c in cs :: c.clickedAt <= m.value) && exists c | c in cs :: c.clickedAt == m.value
  {
    if cs == [] then None
    else
      match MaxClickedAt(cs[1..])
      case None => Some(cs[0].clickedAt)
      case Some(m) => Some(if cs[0].clickedAt >= m then cs[0].clickedAt else m)
  }

  /** `MIN(clicked_at)`, NULL over no rows. */
  function MinClickedAt(cs: seq<ClickRow>): (m: Option<int>)
    ensures m.None? <==> cs == []
    ensures m.Some? ==> (forall c | c in cs :: m.value <= c.clickedAt) && exists c | c in cs :: c.clickedAt == m.value
  {
    if cs == [] then None
    else
      match MinClickedAt(cs[1..])
      case None => Some(cs[0].clickedAt)
      case Some(m) => Some(if cs[0].clickedAt <= m then cs[0].clickedAt else m)
  }

  /** The link's clicks, most recent first (`ORDER BY clicked_at DESC`). */
  function NewestFirst(cs: seq<ClickRow>): seq<ClickRow> {
    SortDesc(cs, ClickedAt)
  }

  function IsActive(u: UrlRow): bool { u.isActive }

  function CreatedAt(u: UrlRow): int { u.createdAt }

  /** `WHERE is_active = 1 ORDER BY created_at DESC`. */
  function ActiveNewestFirst(urls: seq<UrlRow>): seq<UrlRow> {
    SortDesc(Filter(urls, IsActive), CreatedAt)
  }

  /**
   * The listing holds exactly the active rows, each once per row of the table (it is a
   * permutation of them), newest first.
   */
  lemma ActiveNewestFirstFacts(urls: seq<UrlRow>)
    ensures SortedDesc(ActiveNewestFirst(urls), CreatedAt)
    ensures multiset(ActiveNewestFirst(urls)) == multiset(Filter(urls, IsActive))
    ensures forall u :: u in ActiveNewestFirst(urls) <==> u in urls && u.isActive
  {
    SortDescSorted(Filter(urls, IsActive), CreatedAt);
    forall u ensures u in ActiveNewestFirst(urls) <==> u in urls && u.isActive {
      SortDescSameElements(Filter(urls, IsActive), CreatedAt, u);
    }
  }

  /** `COUNT(*) FROM urls WHERE is_active = 1`. */
  function ActiveCount(urls: seq<UrlRow>): nat {
    |Filter(urls, IsActive)|
  }

  /** The row whose `id` a click's `url_id` names is missing (`LEFT JOIN ... WHERE u.id IS NULL`). */
  predicate Orphan(urls: seq<UrlRow>, c: ClickRow) {
    !HasId(urls, c.urlId)
  }
}

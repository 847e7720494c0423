/**
 * The SQLite file behind the service as a mutable store: the `urls` and `clicks` tables with
 * their `AUTOINCREMENT` counters, the statements the routes run against them, and the
 * maintenance jobs (sample seeding, retention cleanup, health check).
 *
 * Foreign keys are never switched on (`PRAGMA foreign_keys` is not issued), so the
 * `ON DELETE CASCADE` of `clicks.url_id` has no effect and `url_id` is not checked on insert.
 */
module Database {
  import opened Wrappers
  import opened Ordering
  import opened Tables

  /** The row `INSERT INTO urls (short_code, original_url, custom_name, campaign_name, created_at)` adds. */
  function NewUrl(id: nat, code: string, originalUrl: string, customName: Option<string>,
                  campaignName: Option<string>, now: int): UrlRow
  {
    UrlRow(id, code, originalUrl, customName, campaignName, now, true)
  }

  /**
   * `UPDATE clicks SET source = ? WHERE url_id = ? AND clicked_at = (SELECT MAX(clicked_at) ...)`:
   * the clicks of `urlId` that no other click of `urlId` is later than.
   */
  ghost predicate IsLatest(clicks: seq<ClickRow>, urlId: nat, i: int)
    requires 0 <= i < |clicks|
  {
    && clicks[i].urlId == urlId
    && forall j | 0 <= j < |clicks| && clicks[j].urlId == urlId :: clicks[j].clickedAt <= clicks[i].clickedAt
  }

  function SetLatestSource(clicks: seq<ClickRow>, urlId: nat, source: string): (r: seq<ClickRow>)
    ensures |r| == |clicks|
    ensures forall i | 0 <= i < |clicks| ::
      r[i] == if IsLatest(clicks, urlId, i) then clicks[i].(source := source) else clicks[i]
  {
    match MaxClickedAt(ClicksOf(clicks, urlId))
    case None =>
      forall i | 0 <= i < |clicks| ensures !IsLatest(clicks, urlId, i) {
        assert clicks[i] in clicks;
      }
      clicks
    case Some(m) =>
      var r := seq(|clicks|, i requires 0 <= i < |clicks| =>
        if clicks[i].urlId == urlId && clicks[i].clickedAt == m then clicks[i].(source := source) else clicks[i]);
      assert forall i | 0 <= i < |clicks| :: clicks[i].urlId == urlId && clicks[i].clickedAt == m <==> IsLatest(clicks, urlId, i) by {
        forall i | 0 <= i < |clicks| && clicks[i].urlId == urlId
          ensures clicks[i].clickedAt == m <==> IsLatest(clicks, urlId, i)
        {
          assert clicks[i] in ClicksOf(clicks, urlId);
          var c :| c in ClicksOf(clicks, urlId) && c.clickedAt == m;
          var k :| 0 <= k < |clicks| && clicks[k] == c;
          forall j | 0 <= j < |clicks| && clicks[j].urlId == urlId ensures clicks[j].clickedAt <= m {
            assert clicks[j] in ClicksOf(clicks, urlId);
          }
        }
      }
      r
  }

  /** Every click after the update either carries the new label or was there unchanged before. */
  lemma SetLatestSourceOrigin(clicks: seq<ClickRow>, urlId: nat, source: string, c: ClickRow)
    requires c in SetLatestSource(clicks, urlId, source)
    ensures c.source == source || c in clicks
  {
    var r := SetLatestSource(clicks, urlId, source);
    var k :| 0 <= k < |r| && r[k] == c;
    assert clicks[k] in clicks;
  }

  /** Rows surviving `DELETE FROM clicks WHERE DATE(clicked_at) < cutoff`. */
  function KeepClick(cutoffDay: int): ClickRow -> bool {
    (c: ClickRow) => Day(c.clickedAt) >= cutoffDay
  }

  /** Rows surviving `DELETE FROM urls WHERE is_active = 0 AND DATE(created_at) < cutoff`. */
  function KeepUrl(cutoffDay: int): UrlRow -> bool {
    (u: UrlRow) => u.isActive || Day(u.createdAt) >= cutoffDay
  }

  /** Deleting rows never breaks the `UNIQUE` code or the primary key. */
  lemma {:induction false} FilterKeepsUnique(urls: seq<UrlRow>, p: UrlRow -> bool)
    requires UniqueCodes(urls) && UniqueIds(urls)
    ensures UniqueCodes(Filter(urls, p)) && UniqueIds(Filter(urls, p))
  {
    if urls != [] {
      var tail := urls[1..];
      assert forall i | 0 <= i < |tail| :: tail[i] == urls[i + 1];
      FilterKeepsUnique(tail, p);
      var rest := Filter(tail, p);
      forall x | x in rest ensures x.shortCode != urls[0].shortCode && x.id != urls[0].id {
        var k :| 0 <= k < |tail| && tail[k] == x;
        assert urls[k + 1] == x;
      }
      assert Filter(urls, p) == (if p(urls[0]) then [urls[0]] else []) + rest;
    }
  }

  /** The constraints of the schema, and ids below the `AUTOINCREMENT` counters. */
  ghost predicate ValidTables(urls: seq<UrlRow>, clicks: seq<ClickRow>, nextUrlId: nat, nextClickId: nat) {
    && UniqueCodes(urls)
    && UniqueIds(urls)
    && (forall u | u in urls :: u.id < nextUrlId)
    && (forall c | c in clicks :: c.id < nextClickId)
  }

  /**
   * The database file: both tables, in insertion order, and the `AUTOINCREMENT` counters.
   * Every statement keeps `short_code` unique and ids below their counter.
   */
  class LinkStore {
    var urls: seq<UrlRow>
    var clicks: seq<ClickRow>
    var nextUrlId: nat
    var nextClickId: nat

    ghost predicate Valid()
      reads this
    {
      ValidTables(urls, clicks, nextUrlId, nextClickId)
    }

    /** What a read-only query sees. */
    function Snapshot(): (db: Db)
      reads this
      ensures db.urls == urls && db.clicks == clicks
    {
      Db(urls, clicks)
    }

    /** `init_db` on a new file: both tables exist and are empty. */
    constructor ()
      ensures Valid()
      ensures urls == [] && clicks == []
    {
      urls := [];
      clicks := [];
      nextUrlId := 1;
      nextClickId := 1;
    }

    /**
     * `INSERT [OR IGNORE] INTO urls`: a code that any row already has, active or not, is
     * refused by the `UNIQUE` constraint and nothing changes; otherwise one active row is
     * appended under the next id.
     */
    method InsertUrl(code: string, originalUrl: string, customName: Option<string>,
                     campaignName: Option<string>, now: int) returns (inserted: bool)
      requires Valid()
      modifies this
      ensures Valid()
      ensures inserted <==> !HasCode(old(urls), code)
      ensures inserted ==> urls == old(urls) + [NewUrl(old(nextUrlId), code, originalUrl, customName, campaignName, now)]
      ensures inserted ==> nextUrlId == old(nextUrlId) + 1
      ensures !inserted ==> urls == old(urls) && nextUrlId == old(nextUrlId)
      ensures clicks == old(clicks) && nextClickId == old(nextClickId)
    {
      inserted := FindByCode(urls, code).None?;
      if inserted {
        urls := urls + [NewUrl(nextUrlId, code, originalUrl, customName, campaignName, now)];
        nextUrlId := nextUrlId + 1;
      }
    }

    /** `INSERT INTO clicks`: exactly one row is appended, under the next id. */
    method InsertClick(urlId: nat, ip: Option<string>, userAgent: Option<string>,
                       referrer: Option<string>, source: string, now: int)
      requires Valid()
      modifies this
      ensures Valid()
      ensures clicks == old(clicks) + [ClickRow(old(nextClickId), urlId, ip, userAgent, referrer, source, now)]
      ensures nextClickId == old(nextClickId) + 1
      ensures urls == old(urls) && nextUrlId == old(nextUrlId)
    {
      clicks := clicks + [ClickRow(nextClickId, urlId, ip, userAgent, referrer, source, now)];
      nextClickId := nextClickId + 1;
    }

    /** Sets `source` on the latest clicks of `urlId`; no row is added or removed. */
    method UpdateLatestSource(urlId: nat, source: string)
      requires Valid()
      modifies this
      ensures Valid()
      ensures clicks == SetLatestSource(old(clicks), urlId, source)
      ensures urls == old(urls) && nextUrlId == old(nextUrlId) && nextClickId == old(nextClickId)
    {
      clicks := SetLatestSource(clicks, urlId, source);
    }

    /** A transaction that is never committed: the tables return to what they were. */
    method Rollback(savedUrls: seq<UrlRow>, savedClicks: seq<ClickRow>, savedNextUrlId: nat, savedNextClickId: nat)
      requires ValidTables(savedUrls, savedClicks, savedNextUrlId, savedNextClickId)
      modifies this
      ensures Valid()
      ensures urls == savedUrls && clicks == savedClicks
      ensures nextUrlId == savedNextUrlId && nextClickId == savedNextClickId
    {
      urls, clicks, nextUrlId, nextClickId := savedUrls, savedClicks, savedNextUrlId, savedNextClickId;
    }

    /** `DELETE FROM clicks WHERE DATE(clicked_at) < cutoffDay`; `deleted` is the row count. */
    method DeleteClicksBefore(cutoffDay: int) returns (deleted: nat)
      requires Valid()
      modifies this
      ensures Valid()
      ensures clicks == Filter(old(clicks), KeepClick(cutoffDay))
      ensures deleted == |old(clicks)| - |clicks|
      ensures urls == old(urls) && nextUrlId == old(nextUrlId) && nextClickId == old(nextClickId)
    {
      var kept := Filter(clicks, KeepClick(cutoffDay));
      deleted := |clicks| - |kept|;
      clicks := kept;
    }

    /** `DELETE FROM urls WHERE is_active = 0 AND DATE(created_at) < cutoffDay`. */
    method DeleteInactiveUrlsBefore(cutoffDay: int) returns (deleted: nat)
      requires Valid()
      modifies this
      ensures Valid()
      ensures urls == Filter(old(urls), KeepUrl(cutoffDay))
      ensures deleted == |old(urls)| - |urls|
      ensures clicks == old(clicks) && nextUrlId == old(nextUrlId) && nextClickId == old(nextClickId)
    {
      FilterKeepsUnique(urls, KeepUrl(cutoffDay));
      var kept := Filter(urls, KeepUrl(cutoffDay));
      deleted := |urls| - |kept|;
      urls := kept;
    }
  }

  // ---------------------------------------------------------------- sample data

  datatype Sample = Sample(code: string, url: string, name: string, campaign: string)

  const SAMPLE_URLS: seq<Sample> := [
    Sample("TEST01", "https://www.google.com", "Google検索", "テストキャンペーン"),
    Sample("TEST02", "https://github.com", "GitHub", "開発ツール"),
    Sample("TEST03", "https://www.youtube.com", "YouTube", "動画サービス")
  ]

  const SAMPLE_CLICK_CODE: string := "TEST01"

  function SampleRow(id: nat, s: Sample, now: int): UrlRow {
    NewUrl(id, s.code, s.url, Some(s.name), Some(s.campaign), now)
  }

  /** The `urls` table and its counter after `INSERT OR IGNORE` of each sample in turn. */
  function SeedUrls(urls: seq<UrlRow>, nextId: nat, samples: seq<Sample>, now: int): (seq<UrlRow>, nat)
    decreases |samples|
  {
    if samples == [] then (urls, nextId)
    else if HasCode(urls, samples[0].code) then SeedUrls(urls, nextId, samples[1..], now)
    else SeedUrls(urls + [SampleRow(nextId, samples[0], now)], nextId + 1, samples[1..], now)
  }

  /** The two clicks added for the row found under `TEST01`, if any. */
  function SampleClicks(test: Option<UrlRow>, firstId: nat, now: int): (r: seq<ClickRow>)
    ensures test.Some? ==> |r| == 2 && forall c | c in r :: c.urlId == test.value.id
    ensures test.None? ==> r == []
  {
    match test
    case None => []
    case Some(row) => [
      ClickRow(firstId, row.id, Some("192.168.1.100"),
        Some("Mozilla/5.0 (Windows NT 10.0; Win64; x64) AppleWebKit/537.36"),
        Some("https://twitter.com"), "twitter", now),
      ClickRow(firstId + 1, row.id, Some("192.168.1.101"),
        Some("Mozilla/5.0 (iPhone; CPU iPhone OS 14_0 like Mac OS X)"),
        Some(""), "direct", now)]
  }

  lemma HasCodeAppend(urls: seq<UrlRow>, row: UrlRow, code: string)
    ensures HasCode(urls + [row], code) <==> HasCode(urls, code) || row.shortCode == code
  {
    if HasCode(urls, code) {
      var i :| 0 <= i < |urls| && urls[i].shortCode == code;
      assert (urls + [row])[i] == urls[i];
    }
    if row.shortCode == code {
      assert (urls + [row])[|urls|] == row;
    }
  }

  /**
   * Seeding keeps every existing row, and afterwards every sample's code has a row, whether
   * it was inserted now or was already there.
   */
  lemma {:induction false} SeedUrlsCovers(urls: seq<UrlRow>, nextId: nat, samples: seq<Sample>, now: int, code: string)
    ensures urls <= SeedUrls(urls, nextId, samples, now).0
    ensures HasCode(SeedUrls(urls, nextId, samples, now).0, code) <==>
      HasCode(urls, code) || exists s | s in samples :: s.code == code
    decreases |samples|
  {
    if samples != [] {
      var s := samples[0];
      if HasCode(urls, s.code) {
        SeedUrlsCovers(urls, nextId, samples[1..], now, code);
      } else {
        var row := SampleRow(nextId, s, now);
        SeedUrlsCovers(urls + [row], nextId + 1, samples[1..], now, code);
        HasCodeAppend(urls, row, code);
      }
      assert forall t | t in samples :: t == s || t in samples[1..];
    }
  }

  /** Seeding a table that already has every sample code changes nothing. */
  lemma {:induction false} SeedUrlsNoop(urls: seq<UrlRow>, nextId: nat, samples: seq<Sample>, now: int)
    requires forall s | s in samples :: HasCode(urls, s.code)
    ensures SeedUrls(urls, nextId, samples, now) == (urls, nextId)
    decreases |samples|
  {
    if samples != [] {
      SeedUrlsNoop(urls, nextId, samples[1..], now);
    }
  }

  /** `create_sample_data` is idempotent on `urls`: a second run inserts no row. */
  lemma SeedUrlsIdempotent(urls: seq<UrlRow>, nextId: nat, now: int, later: int)
    ensures var (u, n) := SeedUrls(urls, nextId, SAMPLE_URLS, now);
      SeedUrls(u, n, SAMPLE_URLS, later) == (u, n)
  {
    var (u, n) := SeedUrls(urls, nextId, SAMPLE_URLS, now);
    forall s | s in SAMPLE_URLS ensures HasCode(u, s.code) {
      SeedUrlsCovers(urls, nextId, SAMPLE_URLS, now, s.code);
    }
    SeedUrlsNoop(u, n, SAMPLE_URLS, later);
  }

  /** However often it runs, each run of `create_sample_data` adds two more clicks for `TEST01`. */
  lemma SeedAlwaysAddsTwoClicks(urls: seq<UrlRow>, nextId: nat, firstClickId: nat, now: int)
    ensures var u := SeedUrls(urls, nextId, SAMPLE_URLS, now).0;
      |SampleClicks(FindByCode(u, SAMPLE_CLICK_CODE), firstClickId, now)| == 2
  {
    assert SAMPLE_URLS[0] in SAMPLE_URLS;
    SeedUrlsCovers(urls, nextId, SAMPLE_URLS, now, SAMPLE_CLICK_CODE);
  }

  /** The `for url_data in sample_urls` loop of `INSERT OR IGNORE` statements. */
  method InsertSamples(db: LinkStore, samples: seq<Sample>, now: int)
    requires db.Valid()
    modifies db
    ensures db.Valid()
    ensures (db.urls, db.nextUrlId) == SeedUrls(old(db.urls), old(db.nextUrlId), samples, now)
    ensures db.clicks == old(db.clicks) && db.nextClickId == old(db.nextClickId)
  {
    for i := 0 to |samples|
      invariant db.Valid()
      invariant SeedUrls(db.urls, db.nextUrlId, samples[i..], now) == SeedUrls(old(db.urls), old(db.nextUrlId), samples, now)
      invariant db.clicks == old(db.clicks) && db.nextClickId == old(db.nextClickId)
    {
      var s := samples[i];
      assert samples[i..][1..] == samples[i + 1..];
      var _ := db.InsertUrl(s.code, s.url, Some(s.name), Some(s.campaign), now);
    }
    assert samples[|samples|..] == [];
  }

  /**
   * `create_sample_data`: seeds the three sample links with `INSERT OR IGNORE`, then adds two
   * clicks for whatever row holds `TEST01`. A database error rolls everything back and
   * yields false.
   */
  method CreateSampleData(db: LinkStore, now: int, fails: bool) returns (ok: bool)
    requires db.Valid()
    modifies db
    ensures db.Valid()
    ensures ok == !fails
    ensures fails ==> db.urls == old(db.urls) && db.clicks == old(db.clicks)
    ensures !fails ==> (db.urls, db.nextUrlId) == SeedUrls(old(db.urls), old(db.nextUrlId), SAMPLE_URLS, now)
    ensures !fails ==> db.clicks == old(db.clicks) + SampleClicks(FindByCode(db.urls, SAMPLE_CLICK_CODE), old(db.nextClickId), now)
  {
    if fails {
      return false;
    }
    InsertSamples(db, SAMPLE_URLS, now);
    var test := FindByCode(db.urls, SAMPLE_CLICK_CODE);
    if test.Some? {
      var first := db.nextClickId;
      db.InsertClick(test.value.id, Some("192.168.1.100"),
        Some("Mozilla/5.0 (Windows NT 10.0; Win64; x64) AppleWebKit/537.36"),
        Some("https://twitter.com"), "twitter", now);
      db.InsertClick(test.value.id, Some("192.168.1.101"),
        Some("Mozilla/5.0 (iPhone; CPU iPhone OS 14_0 like Mac OS X)"),
        Some(""), "direct", now);
    }
    return true;
  }

  // ---------------------------------------------------------------- retention cleanup

  /** The clicks `cleanup_old_data` keeps: exactly those dated on or after the cutoff day. */
  function RetainedClicks(clicks: seq<ClickRow>, today: int, retentionDays: nat): (r: seq<ClickRow>)
    ensures forall c :: c in r <==> c in clicks && Day(c.clickedAt) >= today - retentionDays
  {
    Filter(clicks, KeepClick(today - retentionDays))
  }

  /**
   * The links `cleanup_old_data` keeps: every active one, and every inactive one created on or
   * after the cutoff day.
   */
  function RetainedUrls(urls: seq<UrlRow>, today: int, retentionDays: nat): (r: seq<UrlRow>)
    ensures forall u | u in urls && u.isActive :: u in r
    ensures forall u :: u in urls && u !in r <==> u in urls && !u.isActive && Day(u.createdAt) < today - retentionDays
    ensures forall u | u in r :: u in urls
  {
    Filter(urls, KeepUrl(today - retentionDays))
  }

  /**
   * `cleanup_old_data`, with the two retention periods as parameters: old clicks go first,
   * then old inactive links. A database error rolls both back and yields false.
   */
  method CleanupOldData(db: LinkStore, now: int, clickRetentionDays: nat, inactiveRetentionDays: nat, fails: bool)
    returns (ok: bool)
    requires db.Valid()
    modifies db
    ensures db.Valid()
    ensures ok == !fails
    ensures fails ==> db.urls == old(db.urls) && db.clicks == old(db.clicks)
    ensures !fails ==> db.clicks == RetainedClicks(old(db.clicks), Day(now), clickRetentionDays)
    ensures !fails ==> db.urls == RetainedUrls(old(db.urls), Day(now), inactiveRetentionDays)
  {
    if fails {
      return false;
    }
    var deletedClicks := db.DeleteClicksBefore(Day(now) - clickRetentionDays);
    var deletedUrls := db.DeleteInactiveUrlsBefore(Day(now) - inactiveRetentionDays);
    return true;
  }

  /**
   * Cleanup can leave orphan clicks: a recent click of an old inactive link survives its link,
   * since the cascade on `clicks.url_id` is not enforced.
   */
  lemma CleanupCanOrphanClicks()
    ensures var u := UrlRow(1, "OLD001", "https://example.com", None, None, 0, false);
      var c := ClickRow(1, 1, None, None, None, "direct", 100 * SECONDS_PER_DAY);
      var urls := RetainedUrls([u], 100, 30);
      c in RetainedClicks([c], 100, 30) && Orphan(urls, c) && !Orphan([u], c)
  {
    var u := UrlRow(1, "OLD001", "https://example.com", None, None, 0, false);
    var c := ClickRow(1, 1, None, None, None, "direct", 100 * SECONDS_PER_DAY);
    assert u !in RetainedUrls([u], 100, 30);
    assert RetainedUrls([u], 100, 30) == [];
    assert [u][0] == u;
  }

  // ---------------------------------------------------------------- health check

  function IsOrphanIn(urls: seq<UrlRow>): ClickRow -> bool {
    (c: ClickRow) => Orphan(urls, c)
  }

  /** `SELECT COUNT(*) FROM clicks c LEFT JOIN urls u ON c.url_id = u.id WHERE u.id IS NULL`. */
  function OrphanCount(db: Db): (n: nat)
    ensures n <= |db.clicks|
    ensures n == 0 <==> forall c | c in db.clicks :: HasId(db.urls, c.urlId)
  {
    var r := Filter(db.clicks, IsOrphanIn(db.urls));
    if r != [] then
      assert r[0] in r;
      |r|
    else
      |r|
  }

  /** What `check_database_health` returns, with the orphan warning it prints. */
  datatype Health = Health(healthy: bool, orphanWarning: Option<nat>)

  /**
   * `check_database_health`: unhealthy when `urls` or `clicks` is missing from the table list
   * or the database raises; orphan clicks give only a warning, never an unhealthy verdict.
   */
  function CheckDatabaseHealth(tables: seq<string>, db: Db, fails: bool): (r: Health)
    ensures r.healthy <==> !fails && "urls" in tables && "clicks" in tables
    ensures r.orphanWarning.Some? <==> r.healthy && exists c | c in db.clicks :: Orphan(db.urls, c)
    ensures r.orphanWarning.Some? ==> r.orphanWarning.value == OrphanCount(db) > 0
  {
    if fails || "urls" !in tables || "clicks" !in tables then Health(false, None)
    else
      var n := OrphanCount(db);
      Health(true, if n > 0 then Some(n) else None)
  }
}

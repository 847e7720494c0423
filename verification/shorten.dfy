/**
 * `POST /api/shorten` (one link, code drawn until a free one comes up, no retry cap) and
 * `GET /api/urls` (the listing of active links with their click counts).
 */
module Shorten {
  import opened Wrappers
  import opened Ordering
  import opened Tables
  import opened Database

  // ---------------------------------------------------------------- shorten_url

  /** The request body; `url` is the text `str(request.url)` gives. */
  datatype ShortenRequest = ShortenRequest(url: string, customName: Option<string>, campaignName: Option<string>)

  /** The response body (`success` is always true). */
  datatype ShortenResponse = ShortenResponse(
    shortUrl: string,
    shortCode: string,
    originalUrl: string,
    qrCodeUrl: string,
    createdAt: int,
    customName: Option<string>,
    campaignName: Option<string>)

  /**
   * `code` is the first of the codes `draw(0), draw(1), ...` that no row of `urls` has: the one
   * the `while True` loop stops at.
   */
  ghost predicate FirstFreeDraw(urls: seq<UrlRow>, draw: nat -> string, code: string) {
    exists k: nat :: draw(k) == code && !HasCode(urls, code) && forall i: nat | i < k :: HasCode(urls, draw(i))
  }

  /** Two first free draws are the same code. */
  lemma FirstFreeDrawUnique(urls: seq<UrlRow>, draw: nat -> string, c1: string, c2: string)
    requires FirstFreeDraw(urls, draw, c1) && FirstFreeDraw(urls, draw, c2)
    ensures c1 == c2
  {
    var k1: nat :| draw(k1) == c1 && !HasCode(urls, c1) && forall i: nat | i < k1 :: HasCode(urls, draw(i));
    var k2: nat :| draw(k2) == c2 && !HasCode(urls, c2) && forall i: nat | i < k2 :: HasCode(urls, draw(i));
    assert k1 < k2 ==> HasCode(urls, draw(k1));
    assert k2 < k1 ==> HasCode(urls, draw(k2));
  }

  /**
   * `generate_short_code()` and the `SELECT id FROM urls WHERE short_code = ?` loop: the `k`-th
   * call returns `draw(k)`. The loop ends only because some draw is free.
   */
  method DrawFreeCode(store: LinkStore, draw: nat -> string) returns (code: string, draws: nat)
    requires exists w: nat :: !HasCode(store.urls, draw(w))
    ensures 1 <= draws && code == draw(draws - 1)
    ensures !HasCode(store.urls, code)
    ensures forall i: nat | i < draws - 1 :: HasCode(store.urls, draw(i))
  {
    ghost var w: nat :| !HasCode(store.urls, draw(w));
    var k: nat := 0;
    code := draw(0);
    while FindByCode(store.urls, code).Some?
      invariant k <= w && code == draw(k)
      invariant forall i: nat | i < k :: HasCode(store.urls, draw(i))
      decreases w - k
    {
      k := k + 1;
      code := draw(k);
    }
    draws := k + 1;
  }

  /**
   * `shorten_url`. With the store reachable, the first free draw becomes one new active row
   * holding the request's URL and names, committed before the QR image is made; a failure
   * making the image still answers 500, with the row kept. An unreachable store answers 500 and
   * changes nothing.
   */
  method ShortenUrl(store: LinkStore, request: ShortenRequest, draw: nat -> string, baseUrl: string,
                    qrFor: string -> string, now: int, later: int, storeDown: bool, qrFails: bool)
    returns (r: Result<ShortenResponse>)
    requires store.Valid()
    requires storeDown || exists w: nat :: !HasCode(store.urls, draw(w))
    modifies store
    ensures store.Valid()
    ensures store.clicks == old(store.clicks)
    ensures r.Fail? ==> r.status == SERVER_ERROR
    ensures storeDown ==> r.Fail? && store.urls == old(store.urls)
    ensures !storeDown ==>
      && |store.urls| == |old(store.urls)| + 1
      && store.urls[..|old(store.urls)|] == old(store.urls)
      && var row := store.urls[|old(store.urls)|];
         && FirstFreeDraw(old(store.urls), draw, row.shortCode)
         && row == NewUrl(old(store.nextUrlId), row.shortCode, request.url, request.customName, request.campaignName, now)
         && (r.Fail? <==> qrFails)
         && (r.Ok? ==> r.value == ShortenResponse(ShortUrl(baseUrl, row.shortCode), row.shortCode, request.url,
                                                   qrFor(ShortUrl(baseUrl, row.shortCode)), later,
                                                   request.customName, request.campaignName))
  {
    if storeDown {
      return Fail(SERVER_ERROR);
    }
    var code, draws := DrawFreeCode(store, draw);
    ghost var before := store.urls;
    var inserted := store.InsertUrl(code, request.url, request.customName, request.campaignName, now);
    assert store.urls[|before|] == NewUrl(old(store.nextUrlId), code, request.url, request.customName, request.campaignName, now);
    assert FirstFreeDraw(before, draw, code) by {
      assert draw(draws - 1) == code;
    }
    var shortUrl := ShortUrl(baseUrl, code);
    if qrFails {
      return Fail(SERVER_ERROR);
    }
    return Ok(ShortenResponse(shortUrl, code, request.url, qrFor(shortUrl), later, request.customName, request.campaignName));
  }

  // ---------------------------------------------------------------- get_all_urls

  /** One element of the listing. */
  datatype ListedUrl = ListedUrl(row: UrlRow, totalClicks: nat, shortUrl: string)

  function RowCreatedAt(e: ListedUrl): int { e.row.createdAt }

  /**
   * The `LEFT JOIN clicks ... WHERE u.is_active = 1 GROUP BY u.id ORDER BY u.created_at DESC`
   * rows, with the composed `short_url`.
   */
  function Listing(db: Db, baseUrl: string): seq<ListedUrl> {
    var rows := ActiveNewestFirst(db.urls);
    seq(|rows|, i requires 0 <= i < |rows| =>
      ListedUrl(rows[i], |ClicksOf(db.clicks, rows[i].id)|, ShortUrl(baseUrl, rows[i].shortCode)))
  }

  /** `get_all_urls`: the listing, or 500 when the query raises. */
  function GetAllUrls(db: Db, baseUrl: string, fails: bool): (r: Result<seq<ListedUrl>>)
    ensures fails <==> r == Fail(SERVER_ERROR)
    ensures r.Ok? ==> r.value == Listing(db, baseUrl)
  {
    if fails then Fail(SERVER_ERROR) else Ok(Listing(db, baseUrl))
  }

  /**
   * The listing holds exactly the active rows, one entry per row, newest first; each entry's
   * `total_clicks` is the number of clicks of that row (0 for none) and its `short_url` is
   * `BASE_URL/short_code`.
   */
  lemma ListingFacts(db: Db, baseUrl: string)
    ensures |Listing(db, baseUrl)| == ActiveCount(db.urls)
    ensures SortedDesc(Listing(db, baseUrl), RowCreatedAt)
    ensures forall u :: (exists e | e in Listing(db, baseUrl) :: e.row == u) <==> u in db.urls && u.isActive
    ensures forall e | e in Listing(db, baseUrl) ::
      && e.totalClicks == |ClicksOf(db.clicks, e.row.id)|
      && e.shortUrl == ShortUrl(baseUrl, e.row.shortCode)
  {
    var rows := ActiveNewestFirst(db.urls);
    var l := Listing(db, baseUrl);
    ActiveNewestFirstFacts(db.urls);
    assert |rows| == |Filter(db.urls, IsActive)| by {
      assert |multiset(rows)| == |multiset(Filter(db.urls, IsActive))|;
    }
    forall i, j | 0 <= i < j < |l| ensures RowCreatedAt(l[i]) >= RowCreatedAt(l[j]) {
      assert l[i].row == rows[i] && l[j].row == rows[j];
    }
    forall u ensures (exists e | e in l :: e.row == u) <==> u in db.urls && u.isActive {
      if u in rows {
        var i :| 0 <= i < |rows| && rows[i] == u;
        assert l[i] in l && l[i].row == u;
      }
    }
  }
}

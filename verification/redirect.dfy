/**
 * `GET /{short_code}` and `GET /qr/{short_code}`: the redirect state machine over the link
 * store, the click it records, and the three pure helpers it relies on (code validation,
 * client address, traffic-source classification).
 */
module Redirect {
  import opened Wrappers
  import opened Strings
  import opened Ordering
  import opened Tables
  import opened Database

  // ---------------------------------------------------------------- validate_short_code

  /** Length of the longest prefix of `s` drawn from `[a-zA-Z0-9]`. */
  function AlnumRun(s: string): (n: nat)
    ensures n <= |s|
    ensures forall k | 0 <= k < n :: IsAsciiAlnum(s[k])
    ensures n < |s| ==> !IsAsciiAlnum(s[n])
  {
    if s == [] || !IsAsciiAlnum(s[0]) then 0 else 1 + AlnumRun(s[1..])
  }

  ghost predicate AllAlnum(s: string) {
    forall k | 0 <= k < |s| :: IsAsciiAlnum(s[k])
  }

  /**
   * `re.match(r'^[a-zA-Z0-9]{6,10}$', code)`: 6 to 10 ASCII letters or digits, where Python's
   * `$` also matches just before one final newline.
   */
  function ValidateShortCode(code: string): (ok: bool)
    ensures ok <==>
      || (6 <= |code| <= 10 && AllAlnum(code))
      || (7 <= |code| <= 11 && code[|code| - 1] == '\n' && AllAlnum(code[..|code| - 1]))
  {
    var n := AlnumRun(code);
    6 <= n <= 10 && (n == |code| || (n + 1 == |code| && code[n] == '\n'))
  }

  /** The code with a trailing newline is accepted, although it holds a non-alphanumeric character. */
  lemma TrailingNewlineAccepted()
    ensures ValidateShortCode("abc123\n")
    ensures !ValidateShortCode("abc12") && !ValidateShortCode("abc123x7890")
  {
    var s := "abc123\n";
    assert s[..|s| - 1] == "abc123";
    assert "abc12"[4] == '2';
  }

  // ---------------------------------------------------------------- get_client_ip

  /** An HTTP request as the handlers see it: lower-cased header names and the peer address. */
  datatype Request = Request(headers: map<string, string>, clientHost: Option<string>)

  /** `request.headers.get(name)`. */
  function Header(req: Request, name: string): Option<string> {
    if name in req.headers then Some(req.headers[name]) else None
  }

  /** `request.headers.get(name, "")`. */
  function HeaderOrEmpty(req: Request, name: string): string {
    Header(req, name).GetOr("")
  }

  /** The header is present and not empty (Python truthiness). */
  predicate HasValue(req: Request, name: string) {
    Header(req, name).Some? && Header(req, name).value != ""
  }

  /**
   * `get_client_ip`: a non-empty `X-Forwarded-For` wins, giving its first comma-separated
   * entry without surrounding whitespace; then a non-empty `X-Real-IP`; then the peer's
   * address, or `"unknown"` when there is none.
   */
  function GetClientIp(req: Request): (ip: string)
    ensures HasValue(req, "x-forwarded-for") ==>
      var xff := req.headers["x-forwarded-for"];
      && (exists k | 0 <= k <= |xff| :: ',' !in xff[..k] && (k == |xff| || xff[k] == ',') && ip == Strip(xff[..k]))
      && ',' !in ip
      && Contains(xff, ip)
      && (ip == [] || (!IsSpace(ip[0]) && !IsSpace(ip[|ip| - 1])))
    ensures !HasValue(req, "x-forwarded-for") && HasValue(req, "x-real-ip") ==> ip == req.headers["x-real-ip"]
    ensures !HasValue(req, "x-forwarded-for") && !HasValue(req, "x-real-ip") ==>
      ip == req.clientHost.GetOr("unknown")
  {
    if HasValue(req, "x-forwarded-for") then
      var xff := req.headers["x-forwarded-for"];
      FirstForwardedFacts(xff);
      Strip(BeforeFirst(xff, ','))
    else if HasValue(req, "x-real-ip") then
      req.headers["x-real-ip"]
    else
      req.clientHost.GetOr("unknown")
  }

  /**
   * `split(",")[0].strip()`: the text before the first comma (the whole header when there is
   * none), stripped; a piece of the header with no comma and no whitespace at either end.
   */
  lemma FirstForwardedFacts(xff: string)
    ensures var ip := Strip(BeforeFirst(xff, ','));
      && (exists k | 0 <= k <= |xff| :: ',' !in xff[..k] && (k == |xff| || xff[k] == ',') && ip == Strip(xff[..k]))
      && ',' !in ip
      && Contains(xff, ip)
      && (ip == [] || (!IsSpace(ip[0]) && !IsSpace(ip[|ip| - 1])))
  {
    var first := BeforeFirst(xff, ',');
    var left := TrimStart(first);
    var ip := TrimEnd(left);
    assert ip == Strip(first);
    InnerPiece(xff, first, left, ip);
    assert ip != [] ==> ip[0] == left[0];
    FirstEntry(xff);
  }

  /** The text before the first comma ends at a comma or at the end of the header. */
  lemma FirstEntry(xff: string)
    ensures exists k | 0 <= k <= |xff| ::
      ',' !in xff[..k] && (k == |xff| || xff[k] == ',') && Strip(BeforeFirst(xff, ',')) == Strip(xff[..k])
  {
    var first := BeforeFirst(xff, ',');
    assert xff[..|first|] == first;
  }

  /** A prefix of a suffix of a prefix of `s` without commas occurs in `s` and has no comma. */
  lemma InnerPiece(s: string, first: string, left: string, ip: string)
    requires |first| <= |s| && first == s[..|first|]
    requires |left| <= |first| && left == first[|first| - |left|..]
    requires |ip| <= |left| && ip == left[..|ip|]
    requires ',' !in first
    ensures ',' !in ip && Contains(s, ip)
  {
    var start := |first| - |left|;
    forall k | 0 <= k < |ip|
      ensures ip[k] == s[start + k] && ip[k] != ','
    {
      assert ip[k] == left[k] == first[start + k];
    }
    assert ip == s[start..start + |ip|];
    assert OccursAt(s, ip, start);
  }

  // ---------------------------------------------------------------- determine_traffic_source

  predicate IsSchemeChar(c: char) {
    IsAsciiAlnum(c) || c == '+' || c == '-' || c == '.'
  }

  /** What is left of a URL once a `scheme:` prefix, if it has a valid one, is removed. */
  function AfterScheme(url: string): (rest: string)
    ensures |rest| <= |url| && rest == url[|url| - |rest|..]
  {
    var i := |BeforeFirst(url, ':')|;
    if 0 < i < |url| && IsAsciiLetter(url[0]) && forall k | 0 <= k < i :: IsSchemeChar(url[k])
    then url[i + 1..]
    else url
  }

  /** A valid scheme (a letter, then letters, digits, `+`, `-` or `.`) and its colon are removed. */
  lemma AfterValidScheme(w: string, rest: string)
    requires |w| > 0 && IsAsciiLetter(w[0]) && forall k | 0 <= k < |w| :: IsSchemeChar(w[k])
    ensures AfterScheme(w + ":" + rest) == rest
  {
    var url := w + ":" + rest;
    assert url[..|w|] == w && url[|w|] == ':';
    assert forall k | 0 <= k < |w| :: url[k] != ':' by {
      forall k | 0 <= k < |w| ensures url[k] != ':' {
        assert url[k] == w[k] && IsSchemeChar(w[k]);
      }
    }
    BeforeFirstAt(url, ':', |w|);
    assert forall k | 0 <= k < |w| :: IsSchemeChar(url[k]);
    assert url[|w| + 1..] == rest;
  }

  /** A URL with no colon, or with no valid scheme before its first colon, is kept whole. */
  lemma AfterNoScheme(url: string)
    requires var w := BeforeFirst(url, ':');
      || |w| == |url| || w == [] || !IsAsciiLetter(w[0])
      || exists k | 0 <= k < |w| :: !IsSchemeChar(w[k])
    ensures AfterScheme(url) == url
  {
    var w := BeforeFirst(url, ':');
    assert forall k | 0 <= k < |w| :: url[k] == w[k];
  }

  /**
   * `urlparse(url).netloc`: after the scheme, a `//` introduces the network location, which
   * runs up to the first `/`, `?` or `#`. An unbalanced `[` or `]` in it makes `urlparse`
   * raise (`None` here). Without `//` the network location is empty.
   */
  function Netloc(url: string): (r: Option<string>)
    ensures r.Some? ==> ('[' in r.value <==> ']' in r.value)
    ensures r.Some? ==> forall k | 0 <= k < |r.value| :: r.value[k] !in {'/', '?', '#'}
  {
    var rest := AfterScheme(url);
    if |rest| >= 2 && rest[..2] == "//" then
      var netloc := BeforeAny(rest[2..], {'/', '?', '#'});
      if ('[' in netloc) != (']' in netloc) then None else Some(netloc)
    else Some("")
  }

  /** One entry of a classification table: a substring to look for and the source it names. */
  datatype Rule = Rule(pattern: string, name: string)

  const SOCIAL_PLATFORMS: seq<Rule> := [
    Rule("twitter.com", "twitter"),
    Rule("t.co", "twitter"),
    Rule("facebook.com", "facebook"),
    Rule("instagram.com", "instagram"),
    Rule("linkedin.com", "linkedin"),
    Rule("youtube.com", "youtube"),
    Rule("tiktok.com", "tiktok"),
    Rule("line.me", "line")
  ]

  const SEARCH_ENGINES: seq<Rule> := [
    Rule("google", "google"),
    Rule("yahoo", "yahoo"),
    Rule("bing", "bing"),
    Rule("duckduckgo", "duckduckgo")
  ]

  /** The name of the first rule, in table order, whose pattern occurs in `domain`. */
  function FirstMatch(domain: string, rules: seq<Rule>): (r: Option<string>)
    ensures r.None? <==> forall i | 0 <= i < |rules| :: !Contains(domain, rules[i].pattern)
    ensures r.Some? ==> exists i | 0 <= i < |rules| ::
      && Contains(domain, rules[i].pattern)
      && r.value == rules[i].name
      && forall j | 0 <= j < i :: !Contains(domain, rules[j].pattern)
  {
    if rules == [] then None
    else if Contains(domain, rules[0].pattern) then
      Some(rules[0].name)
    else
      var r := FirstMatch(domain, rules[1..]);
      assert forall i | 0 <= i < |rules| - 1 :: rules[1..][i] == rules[i + 1];
      if r.Some? then
        var i :| 0 <= i < |rules| - 1 && Contains(domain, rules[1..][i].pattern) && r.value == rules[1..][i].name
          && forall j | 0 <= j < i :: !Contains(domain, rules[1..][j].pattern);
        assert forall j | 0 <= j < i + 1 :: !Contains(domain, rules[j].pattern) by {
          forall j | 0 <= j < i + 1 ensures !Contains(domain, rules[j].pattern) {
            if j > 0 {
              assert rules[j] == rules[1..][j - 1];
            }
          }
        }
        r
      else
        r
  }

  lemma FirstMatchName(domain: string, rules: seq<Rule>)
    requires FirstMatch(domain, rules).Some?
    ensures exists i | 0 <= i < |rules| :: FirstMatch(domain, rules).value == rules[i].name
  {
  }

  const DIRECT: string := "direct"
  const UNKNOWN: string := "unknown"
  const EMAIL: string := "email"

  /** The `source` label the admin dashboard counts as QR traffic. */
  const ADMIN_QR_SOURCE: string := "qr"

  /**
   * `determine_traffic_source`: no referrer is direct traffic; otherwise the lower-cased network
   * location is matched, by substring, against the social table, the search table and the mail
   * words, in that order; only then does a QR-scanner user agent count; anything else is a
   * referral from that domain. A referrer `urlparse` rejects is `"unknown"`.
   */
  function DetermineTrafficSource(referrer: string, userAgent: string): string {
    if referrer == "" then DIRECT
    else
      match Netloc(referrer)
      case None => UNKNOWN
      case Some(netloc) => ClassifyDomain(Lower(netloc), userAgent)
  }

  /** The cascade applied to a parsed, lower-cased network location. */
  function ClassifyDomain(domain: string, userAgent: string): string {
    var social := FirstMatch(domain, SOCIAL_PLATFORMS);
    var search := FirstMatch(domain, SEARCH_ENGINES);
    if social.Some? then social.value
    else if search.Some? then "search_" + search.value
    else if Contains(domain, "mail") || Contains(domain, "outlook") || Contains(domain, "gmail") then EMAIL
    else if IsQrScanner(userAgent) then QR_CODE_SOURCE
    else "referral_" + domain
  }

  /** `"qr" in user_agent.lower() or "scanner" in user_agent.lower()`. */
  predicate IsQrScanner(userAgent: string) {
    Contains(Lower(userAgent), "qr") || Contains(Lower(userAgent), "scanner")
  }

  /** The labels of the social table. */
  lemma SocialNames(i: nat)
    requires i < |SOCIAL_PLATFORMS|
    ensures SOCIAL_PLATFORMS[i].name in {"twitter", "facebook", "instagram", "linkedin", "youtube", "tiktok", "line"}
  {
  }

  /** The cascade never yields `"direct"` or `"qr"`, and yields `"qr_code"` only for a scanner. */
  lemma ClassifyDomainLabels(domain: string, userAgent: string)
    ensures ClassifyDomain(domain, userAgent) != DIRECT
    ensures ClassifyDomain(domain, userAgent) != ADMIN_QR_SOURCE
    ensures ClassifyDomain(domain, userAgent) == QR_CODE_SOURCE ==> IsQrScanner(userAgent)
  {
    var social := FirstMatch(domain, SOCIAL_PLATFORMS);
    var search := FirstMatch(domain, SEARCH_ENGINES);
    if social.Some? {
      FirstMatchName(domain, SOCIAL_PLATFORMS);
      var i :| 0 <= i < |SOCIAL_PLATFORMS| && social.value == SOCIAL_PLATFORMS[i].name;
      SocialNames(i);
    } else if search.Some? {
      var tag := "search_" + search.value;
      assert tag[0] == 's';
    } else if !(Contains(domain, "mail") || Contains(domain, "outlook") || Contains(domain, "gmail"))
      && !IsQrScanner(userAgent) {
      var tag := "referral_" + domain;
      assert tag[0] == 'r';
    }
  }

  /**
   * The labels `determine_traffic_source` can produce: `"direct"` exactly when the referrer is
   * empty, whatever the user agent; `"qr_code"` only for a QR-scanner user agent that did send
   * a referrer; and never the `"qr"` label the dashboard counts.
   */
  lemma TrafficSourceFacts(referrer: string, userAgent: string)
    ensures DetermineTrafficSource(referrer, userAgent) == DIRECT <==> referrer == ""
    ensures DetermineTrafficSource(referrer, userAgent) == QR_CODE_SOURCE ==> referrer != "" && IsQrScanner(userAgent)
    ensures DetermineTrafficSource(referrer, userAgent) != ADMIN_QR_SOURCE
  {
    if referrer != "" {
      match Netloc(referrer)
      case None =>
      case Some(netloc) =>
        ClassifyDomainLabels(Lower(netloc), userAgent);
    }
  }

  /**
   * `urlparse` on an `https://` URL: the network location is the host, up to the path, query
   * or fragment.
   */
  lemma HttpsNetloc(host: string, path: string)
    requires forall k | 0 <= k < |host| :: host[k] !in {'/', '?', '#', '[', ']'}
    requires path == [] || path[0] in {'/', '?', '#'}
    ensures Netloc("https://" + host + path) == Some(host)
  {
    assert "https://" + host + path == "https:" + ("//" + (host + path));
    HttpsAfterScheme("//" + (host + path));
    HostBeforeStops(host, path);
    NetlocAfterSlashes("https://" + host + path, host + path, host);
  }

  /** Once the scheme is removed, a `//` followed by the host gives that host. */
  lemma NetlocAfterSlashes(url: string, tail: string, host: string)
    requires AfterScheme(url) == "//" + tail
    requires BeforeAny(tail, {'/', '?', '#'}) == host
    requires forall k | 0 <= k < |host| :: host[k] != '[' && host[k] != ']'
    ensures Netloc(url) == Some(host)
  {
    var rest := "//" + tail;
    assert rest[..2] == "//" && rest[2..] == tail;
    assert '[' !in host && ']' !in host;
  }

  /** The host ends where the path, query or fragment begins. */
  lemma HostBeforeStops(host: string, path: string)
    requires forall k | 0 <= k < |host| :: host[k] !in {'/', '?', '#', '[', ']'}
    requires path == [] || path[0] in {'/', '?', '#'}
    ensures BeforeAny(host + path, {'/', '?', '#'}) == host
    ensures forall k | 0 <= k < |host| :: host[k] != '[' && host[k] != ']'
  {
    var tail := host + path;
    BeforeAnyAt(tail, {'/', '?', '#'}, |host|);
    assert tail[..|host|] == host;
  }

  /** `https` is a valid scheme, so everything after its colon is kept. */
  lemma HttpsAfterScheme(rest: string)
    ensures AfterScheme("https:" + rest) == rest
  {
    var url := "https:" + rest;
    assert url[..6] == "https:";
    BeforeFirstAt(url, ':', 5);
    assert forall k | 0 <= k < 5 :: IsSchemeChar(url[k]);
    assert url[6..] == rest;
  }

  /** A QR scanner that sends no referrer is counted as direct traffic. */
  lemma QrScannerWithoutReferrerIsDirect()
    ensures DetermineTrafficSource("", "QR Scanner/1.0") == DIRECT
  {
  }

  /**
   * Social domains are matched by substring and `"t.co"` comes second in the table, so any
   * domain containing `t.co` is Twitter traffic, whatever the user agent.
   */
  lemma TcoMatchesAnyDomain(domain: string, userAgent: string)
    requires Contains(domain, "t.co")
    ensures ClassifyDomain(domain, userAgent) == "twitter"
  {
    var social := FirstMatch(domain, SOCIAL_PLATFORMS);
    assert SOCIAL_PLATFORMS[1].pattern == "t.co";
    var i :| 0 <= i < |SOCIAL_PLATFORMS| && Contains(domain, SOCIAL_PLATFORMS[i].pattern)
      && social.value == SOCIAL_PLATFORMS[i].name
      && forall j | 0 <= j < i :: !Contains(domain, SOCIAL_PLATFORMS[j].pattern);
    assert i <= 1;
  }

  /** A link followed from an `https` page whose host contains `t.co` is recorded as Twitter traffic. */
  lemma TcoHostIsTwitter(host: string, path: string, userAgent: string)
    requires forall k | 0 <= k < |host| :: host[k] !in {'/', '?', '#', '[', ']'}
    requires path == [] || path[0] in {'/', '?', '#'}
    requires Contains(Lower(host), "t.co")
    ensures DetermineTrafficSource("https://" + host + path, userAgent) == "twitter"
  {
    HttpsNetloc(host, path);
    TcoMatchesAnyDomain(Lower(host), userAgent);
  }

  /** For instance a link followed from any page of `reddit.com` is recorded as coming from Twitter. */
  lemma RedditCountsAsTwitter(host: string, path: string, userAgent: string)
    requires host == "reddit.com"
    requires path == [] || path[0] in {'/', '?', '#'}
    ensures DetermineTrafficSource("https://" + host + path, userAgent) == "twitter"
  {
    assert Lower(host) == host;
    assert OccursAt(host, "t.co", 5);
    TcoHostIsTwitter(host, path, userAgent);
  }

  // ---------------------------------------------------------------- record_click

  /** `user_agent[:500]` and `referrer[:500]`. */
  const MAX_STORED_HEADER: nat := 500

  /**
   * The row `record_click` inserts: the client address, the user agent and referrer cut to
   * 500 characters (absent headers stored as empty strings), and the source classified from
   * the headers before they were cut.
   */
  function ClickFor(id: nat, urlId: nat, req: Request, now: int): (c: ClickRow)
    ensures c.id == id && c.urlId == urlId && c.clickedAt == now
    ensures c.ipAddress == Some(GetClientIp(req))
    ensures var ua := HeaderOrEmpty(req, "user-agent");
      && c.userAgent.Some?
      && |c.userAgent.value| == (if |ua| <= MAX_STORED_HEADER then |ua| else MAX_STORED_HEADER)
      && c.userAgent.value == ua[..|c.userAgent.value|]
    ensures var referrer := HeaderOrEmpty(req, "referer");
      && c.referrer.Some?
      && |c.referrer.value| == (if |referrer| <= MAX_STORED_HEADER then |referrer| else MAX_STORED_HEADER)
      && c.referrer.value == referrer[..|c.referrer.value|]
    ensures c.source == DetermineTrafficSource(HeaderOrEmpty(req, "referer"), HeaderOrEmpty(req, "user-agent"))
    ensures c.source != ADMIN_QR_SOURCE
  {
    TrafficSourceFacts(HeaderOrEmpty(req, "referer"), HeaderOrEmpty(req, "user-agent"));
    var userAgent := HeaderOrEmpty(req, "user-agent");
    var referrer := HeaderOrEmpty(req, "referer");
    ClickRow(id, urlId, Some(GetClientIp(req)), Some(Take(userAgent, MAX_STORED_HEADER)),
      Some(Take(referrer, MAX_STORED_HEADER)), DetermineTrafficSource(referrer, userAgent), now)
  }

  /** No stored click carries the label the dashboard counts as QR traffic. */
  ghost predicate NoAdminQrSource(clicks: seq<ClickRow>) {
    forall c | c in clicks :: c.source != ADMIN_QR_SOURCE
  }

  /**
   * `record_click`: appends exactly one click for `urlId`; a failing insert is swallowed and
   * leaves the table as it was.
   */
  method RecordClick(store: LinkStore, urlId: nat, req: Request, now: int, writeFails: bool)
    requires store.Valid()
    modifies store
    ensures store.Valid()
    ensures store.urls == old(store.urls)
    ensures writeFails ==> store.clicks == old(store.clicks)
    ensures !writeFails ==> store.clicks == old(store.clicks) + [ClickFor(old(store.nextClickId), urlId, req, now)]
  {
    var clientIp := GetClientIp(req);
    var userAgent := HeaderOrEmpty(req, "user-agent");
    var referrer := HeaderOrEmpty(req, "referer");
    var source := DetermineTrafficSource(referrer, userAgent);
    if writeFails {
      return;
    }
    store.InsertClick(urlId, Some(clientIp), Some(Take(userAgent, MAX_STORED_HEADER)),
      Some(Take(referrer, MAX_STORED_HEADER)), source, now);
  }

  // ---------------------------------------------------------------- redirect_url

  /**
   * The response of `redirect_url`: `Ok(location)` is the 302 to `location`. A malformed
   * code is refused before the database is opened; `storeDown` is an error raised while
   * opening or querying it.
   */
  function RedirectOutcome(urls: seq<UrlRow>, code: string, storeDown: bool): (r: Result<string>)
    ensures r.Ok? ==> exists u | u in urls :: u.shortCode == code && u.isActive && u.originalUrl == r.value
    ensures r.Ok? ==> ValidateShortCode(code) && !storeDown
    ensures r.Fail? ==> r.status in {NOT_FOUND, GONE, SERVER_ERROR}
    ensures r == Fail(NOT_FOUND) <==> !ValidateShortCode(code) || (!storeDown && !HasCode(urls, code))
    ensures r == Fail(SERVER_ERROR) <==> ValidateShortCode(code) && storeDown
  {
    if !ValidateShortCode(code) then Fail(NOT_FOUND)
    else if storeDown then Fail(SERVER_ERROR)
    else
      match FindByCode(urls, code)
      case None => Fail(NOT_FOUND)
      case Some(row) => if row.isActive then Ok(row.originalUrl) else Fail(GONE)
  }

  /**
   * With unique codes the outcome is decided by the one row holding the code: 302 to its
   * target when it is active, 410 when it is not.
   */
  lemma RedirectOutcomeByRow(urls: seq<UrlRow>, code: string, i: nat)
    requires UniqueCodes(urls) && i < |urls| && urls[i].shortCode == code
    requires ValidateShortCode(code)
    ensures RedirectOutcome(urls, code, false) == if urls[i].isActive then Ok(urls[i].originalUrl) else Fail(GONE)
  {
    FindByCodeUnique(urls, i);
  }

  /**
   * The clicks table once `redirect_url` has run: one click more, for the row holding the code,
   * exactly when it redirects and the insert succeeds.
   */
  function ClicksAfterRedirect(clicks: seq<ClickRow>, urls: seq<UrlRow>, code: string, storeDown: bool,
                               nextClickId: nat, req: Request, now: int, clickWriteFails: bool): (r: seq<ClickRow>)
    ensures RedirectOutcome(urls, code, storeDown).Fail? || clickWriteFails ==> r == clicks
    ensures RedirectOutcome(urls, code, storeDown).Ok? && !clickWriteFails ==>
      r == clicks + [ClickFor(nextClickId, FindByCode(urls, code).value.id, req, now)]
  {
    match RedirectOutcome(urls, code, storeDown)
    case Fail(_) => clicks
    case Ok(_) =>
      if clickWriteFails then clicks
      else clicks + [ClickFor(nextClickId, FindByCode(urls, code).value.id, req, now)]
  }

  /**
   * `redirect_url`: 404 for a malformed or unknown code and 410 for an inactive one, with the
   * clicks untouched; for an active code exactly one click is appended (unless its insert
   * fails, which is swallowed) and the 302 goes to the row's `original_url`.
   */
  method RedirectUrl(store: LinkStore, code: string, req: Request, now: int, storeDown: bool, clickWriteFails: bool)
    returns (r: Result<string>)
    requires store.Valid()
    modifies store
    ensures store.Valid()
    ensures r == RedirectOutcome(old(store.urls), code, storeDown)
    ensures store.urls == old(store.urls)
    ensures r.Fail? || clickWriteFails ==> store.clicks == old(store.clicks)
    ensures r.Ok? && !clickWriteFails ==>
      store.clicks == old(store.clicks) + [ClickFor(old(store.nextClickId), FindByCode(store.urls, code).value.id, req, now)]
    ensures store.clicks == ClicksAfterRedirect(old(store.clicks), old(store.urls), code, storeDown,
                                                old(store.nextClickId), req, now, clickWriteFails)
    ensures NoAdminQrSource(old(store.clicks)) ==> NoAdminQrSource(store.clicks)
  {
    if !ValidateShortCode(code) {
      return Fail(NOT_FOUND);
    }
    if storeDown {
      return Fail(SERVER_ERROR);
    }
    var found := FindByCode(store.urls, code);
    if found.None? {
      return Fail(NOT_FOUND);
    }
    var row := found.value;
    if !row.isActive {
      return Fail(GONE);
    }
    RecordClick(store, row.id, req, now, clickWriteFails);
    return Ok(row.originalUrl);
  }

  // ---------------------------------------------------------------- redirect_from_qr

  /**
   * `redirect_from_qr`: runs `redirect_url`; any failure of it, 404 and 410 included, and any
   * failure of the follow-up update come back as 500. On success the clicks of the link that
   * carry the latest `clicked_at` are relabelled `qr_code`.
   */
  method RedirectFromQr(store: LinkStore, code: string, req: Request, now: int,
                        storeDown: bool, clickWriteFails: bool, updateFails: bool)
    returns (r: Result<string>)
    requires store.Valid()
    modifies store
    ensures store.Valid()
    ensures store.urls == old(store.urls)
    ensures r.Fail? ==> r.status == SERVER_ERROR
    ensures r.Ok? <==> RedirectOutcome(old(store.urls), code, storeDown).Ok? && !updateFails
    ensures r.Ok? ==> r == RedirectOutcome(old(store.urls), code, storeDown)
    ensures RedirectOutcome(old(store.urls), code, storeDown).Fail? ==> store.clicks == old(store.clicks)
    ensures r.Fail? ==> store.clicks == ClicksAfterRedirect(old(store.clicks), old(store.urls), code, storeDown,
                                                            old(store.nextClickId), req, now, clickWriteFails)
    ensures r.Ok? ==> store.clicks == SetLatestSource(
      ClicksAfterRedirect(old(store.clicks), old(store.urls), code, storeDown, old(store.nextClickId), req, now, clickWriteFails),
      FindByCode(store.urls, code).value.id, QR_CODE_SOURCE)
    ensures NoAdminQrSource(old(store.clicks)) ==> NoAdminQrSource(store.clicks)
  {
    var response := RedirectUrl(store, code, req, now, storeDown, clickWriteFails);
    if response.Fail? {
      return Fail(SERVER_ERROR);
    }
    var id := FindByCode(store.urls, code).value.id;
    if updateFails {
      return Fail(SERVER_ERROR);
    }
    ghost var before := store.clicks;
    store.UpdateLatestSource(id, QR_CODE_SOURCE);
    if NoAdminQrSource(before) {
      RelabelKeepsNoAdminQr(before, id);
    }
    return response;
  }

  /** Relabelling clicks `qr_code` never introduces the dashboard's `qr` label. */
  lemma RelabelKeepsNoAdminQr(clicks: seq<ClickRow>, urlId: nat)
    requires NoAdminQrSource(clicks)
    ensures NoAdminQrSource(SetLatestSource(clicks, urlId, QR_CODE_SOURCE))
  {
    forall c | c in SetLatestSource(clicks, urlId, QR_CODE_SOURCE) ensures c.source != ADMIN_QR_SOURCE {
      SetLatestSourceOrigin(clicks, urlId, QR_CODE_SOURCE, c);
      assert QR_CODE_SOURCE != ADMIN_QR_SOURCE by {
        assert |QR_CODE_SOURCE| != |ADMIN_QR_SOURCE|;
      }
    }
  }
}

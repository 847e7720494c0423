/**
 * `POST /api/bulk`: one request creates many links. Each item is handled on its own (a bad
 * item becomes a failure entry and the batch goes on); codes come from a bounded allocator that
 * checks the table, including the rows this batch has already inserted, before each use.
 */
module Bulk {
  import opened Wrappers
  import opened Strings
  import opened Ordering
  import opened Tables
  import opened Database
  import Redirect

  // ---------------------------------------------------------------- generate_unique_short_code_bulk

  /** `string.ascii_letters + string.digits`, in that order. */
  const ALPHABET: string :=
    seq(26, i requires 0 <= i < 26 => ('a' as int + i) as char)
    + seq(26, i requires 0 <= i < 26 => ('A' as int + i) as char)
    + seq(10, i requires 0 <= i < 10 => ('0' as int + i) as char)
  const MAX_ATTEMPTS: nat := 50
  const BULK_CODE_LENGTH: nat := 6

  lemma AlphabetIsAlnum(i: nat)
    requires i < |ALPHABET|
    ensures IsAsciiAlnum(ALPHABET[i])
  {
  }

  /**
   * `''.join(random.choices(chars, k=length))`, reading `length` numbers of the random stream
   * `pick` from position `at`.
   */
  function Candidate(pick: nat -> nat, at: nat, length: nat): (code: string)
    ensures |code| == length
    ensures forall i | 0 <= i < length :: IsAsciiAlnum(code[i])
  {
    var code := seq(length, i requires 0 <= i < length => ALPHABET[pick(at + i) % |ALPHABET|]);
    assert forall i | 0 <= i < length :: IsAsciiAlnum(code[i]) by {
      forall i | 0 <= i < length ensures IsAsciiAlnum(code[i]) {
        AlphabetIsAlnum(pick(at + i) % |ALPHABET|);
      }
    }
    code
  }

  /** The `j`-th candidate drawn from position `at`: each candidate reads the next `length` numbers. */
  function CandidateAt(pick: nat -> nat, at: nat, length: nat, j: nat): string
    decreases j
  {
    if j == 0 then Candidate(pick, at, length) else CandidateAt(pick, at + length, length, j - 1)
  }

  /** The `j`-th candidate is the one read from position `at + j * length`. */
  lemma {:induction false} CandidateAtPosition(pick: nat -> nat, at: nat, length: nat, j: nat)
    ensures CandidateAt(pick, at, length, j) == Candidate(pick, at + j * length, length)
    decreases j
  {
    if j > 0 {
      CandidateAtPosition(pick, at + length, length, j - 1);
      assert at + length + (j - 1) * length == at + j * length;
    }
  }

  /** The code the allocator hands out, if any, and the number of existence checks it made. */
  datatype Allocation = Allocation(code: Option<string>, checks: nat)

  /** The same outcome, counting `k` more checks made before it. */
  function After(a: Allocation, k: nat): Allocation {
    Allocation(a.code, a.checks + k)
  }

  /**
   * Up to `attempts` candidates are checked in turn against every row, active or not; the first
   * one no row has is returned. When all are taken there is no code.
   */
  function Allocate(urls: seq<UrlRow>, pick: nat -> nat, at: nat, length: nat, attempts: nat): (a: Allocation)
    ensures a.checks <= attempts
    ensures a.code.Some? ==> 1 <= a.checks && !HasCode(urls, a.code.value) && |a.code.value| == length
    ensures a.code.Some? ==> forall i | 0 <= i < length :: IsAsciiAlnum(a.code.value[i])
    decreases attempts
  {
    if attempts == 0 then Allocation(None, 0)
    else
      var c := Candidate(pick, at, length);
      if !HasCode(urls, c) then Allocation(Some(c), 1)
      else After(Allocate(urls, pick, at + length, length, attempts - 1), 1)
  }

  /**
   * The allocator returns the first free candidate, having found every earlier one taken; with
   * no code it has checked `attempts` candidates, all taken.
   */
  /** An allocator that found nothing drew every one of its candidates. */
  lemma {:induction false} AllocateExhausted(urls: seq<UrlRow>, pick: nat -> nat, at: nat, length: nat, attempts: nat)
    ensures var a := Allocate(urls, pick, at, length, attempts); a.code.None? ==> a.checks == attempts
    decreases attempts
  {
    if attempts > 0 && HasCode(urls, Candidate(pick, at, length)) {
      AllocateExhausted(urls, pick, at + length, length, attempts - 1);
    }
  }

  lemma {:induction false} AllocateFirstFree(urls: seq<UrlRow>, pick: nat -> nat, at: nat, length: nat, attempts: nat)
    ensures var a := Allocate(urls, pick, at, length, attempts);
      && (a.code.Some? ==> a.code.value == CandidateAt(pick, at, length, a.checks - 1))
      && (a.code.None? ==> a.checks == attempts)
      && forall j | 0 <= j < a.checks && (a.code.Some? ==> j < a.checks - 1) :: HasCode(urls, CandidateAt(pick, at, length, j))
    decreases attempts
  {
    if attempts > 0 && HasCode(urls, Candidate(pick, at, length)) {
      var b := Allocate(urls, pick, at + length, length, attempts - 1);
      AllocateFirstFree(urls, pick, at + length, length, attempts - 1);
      assert Allocate(urls, pick, at, length, attempts) == After(b, 1);
      if b.code.Some? {
        assert CandidateAt(pick, at, length, b.checks) == CandidateAt(pick, at + length, length, b.checks - 1);
      }
      forall j | 0 <= j < b.checks + 1 && (b.code.Some? ==> j < b.checks)
        ensures HasCode(urls, CandidateAt(pick, at, length, j))
      {
        if j > 0 {
          assert CandidateAt(pick, at, length, j) == CandidateAt(pick, at + length, length, j - 1);
        }
      }
    }
  }

  /**
   * `generate_unique_short_code_bulk`: the `for _ in range(50)` loop, one `SELECT 1 FROM urls
   * WHERE short_code = ?` per pass. `None` is the `HTTPException(500)` it raises after 50
   * taken candidates.
   */
  method AllocateBulk(store: LinkStore, pick: nat -> nat, at: nat, length: nat) returns (a: Allocation)
    ensures a == Allocate(store.urls, pick, at, length, MAX_ATTEMPTS)
  {
    var k: nat := 0;
    var pos: nat := at;
    while k < MAX_ATTEMPTS
      invariant k <= MAX_ATTEMPTS
      invariant Allocate(store.urls, pick, at, length, MAX_ATTEMPTS)
        == After(Allocate(store.urls, pick, pos, length, MAX_ATTEMPTS - k), k)
    {
      var code := Candidate(pick, pos, length);
      if FindByCode(store.urls, code).None? {
        return Allocation(Some(code), k + 1);
      }
      pos := pos + length;
      k := k + 1;
    }
    return Allocation(None, MAX_ATTEMPTS);
  }

  /** A code from the allocator is one that `redirect_url` accepts. */
  lemma AllocatedCodeIsValid(urls: seq<UrlRow>, pick: nat -> nat, at: nat)
    ensures var a := Allocate(urls, pick, at, BULK_CODE_LENGTH, MAX_ATTEMPTS);
      a.code.Some? ==> Redirect.ValidateShortCode(a.code.value)
  {
  }

  // ---------------------------------------------------------------- the request

  /** A JSON string field: missing, `null`, or a string. */
  datatype Field = Absent | Null | Text(text: string)

  /** One element of the `urls` array: an object with `url` and `custom_name`, or anything else. */
  datatype BulkItem = Item(url: Field, customName: Field) | NotAnObject

  /** The request's `urls` member. */
  datatype UrlList = Missing | NullList | List(items: seq<BulkItem>)

  /** `item.get(key, default)`. */
  function Get(f: Field, default: Option<string>): (r: Option<string>)
    ensures f.Absent? ==> r == default
    ensures f.Null? ==> r.None?
    ensures f.Text? ==> r == Some(f.text)
  {
    match f
    case Absent => default
    case Null => None
    case Text(t) => Some(t)
  }

  /** The cleaned fields of an item. */
  datatype Parsed = Parsed(url: string, customName: Option<string>)

  /**
   * `item.get("url", "").strip()` and `item.get("custom_name", "").strip() or None`; `None` when
   * either `.strip()` is applied to a `null`.
   */
  function ParseItem(url: Field, customName: Field): (r: Option<Parsed>)
    ensures r.None? <==> url.Null? || customName.Null?
    ensures r.Some? ==> r.value.customName.Some? ==> customName.Text? && r.value.customName.value != ""
    ensures r.Some? && url.Absent? ==> r.value.url == ""
  {
    match (Get(url, Some("")), Get(customName, Some("")))
    case (Some(u), Some(n)) => Some(Parsed(Strip(u), if Strip(n) == "" then None else Some(Strip(n))))
    case _ => None
  }

  const INVALID_URL_MESSAGE: string := "無効なURLです"
  /** `str()` of the allocator's `HTTPException`. */
  const ALLOCATION_FAILED_MESSAGE: string := "500: 短縮コードの生成に失敗しました"
  /** `str()` of the `AttributeError` from `None.strip()`. */
  const NULL_STRIP_MESSAGE: string := "'NoneType' object has no attribute 'strip'"

  /** One element of `results`. */
  datatype BulkEntry = BulkEntry(
    originalUrl: Option<string>,
    shortCode: string,
    shortUrl: string,
    customName: Option<string>,
    success: bool,
    errorMessage: Option<string>)

  /** The entry the `except Exception` branch appends: the raw fields, as the item carried them. */
  function RaisedEntry(url: Field, customName: Field, message: string): BulkEntry {
    BulkEntry(Get(url, Some("")), "", "", Get(customName, None), false, Some(message))
  }

  /** The response body. */
  datatype BulkResponse = BulkResponse(successCount: nat, failedCount: nat, totalCount: nat, results: seq<BulkEntry>)

  /** What the handler relies on but does not define: URL checking and cleaning, randomness, settings, the clock. */
  datatype BulkEnv = BulkEnv(
    validUrl: string -> bool,
    cleanUrl: string -> string,
    pick: nat -> nat,
    baseUrl: string,
    now: int)

  /** The batch so far: the `urls` table and its counter, the random stream position, and the counters. */
  datatype BulkState = BulkState(
    urls: seq<UrlRow>,
    nextId: nat,
    rng: nat,
    results: seq<BulkEntry>,
    successCount: nat,
    failedCount: nat)

  function WithFailure(s: BulkState, e: BulkEntry): BulkState {
    s.(results := s.results + [e], failedCount := s.failedCount + 1)
  }

  /**
   * One pass of `for item in request.get("urls", [])`. A non-object item makes even the
   * `except` branch raise (`item.get`), so the whole request fails.
   */
  function Step(s: BulkState, item: BulkItem, env: BulkEnv): Result<BulkState> {
    match item
    case NotAnObject => Fail(SERVER_ERROR)
    case Item(url, customName) => Ok(ItemStep(s, url, customName, env))
  }

  /** One object item: a raised error, a skip, a rejected URL, or an allocation. */
  function ItemStep(s: BulkState, url: Field, customName: Field, env: BulkEnv): BulkState {
    match ParseItem(url, customName)
    case None => WithFailure(s, RaisedEntry(url, customName, NULL_STRIP_MESSAGE))
    case Some(p) =>
      if |p.url| == 0 then s
      else if !env.validUrl(p.url) then WithFailure(s, InvalidEntry(p))
      else Place(s, url, customName, p, env, Allocate(s.urls, env.pick, s.rng, BULK_CODE_LENGTH, MAX_ATTEMPTS))
  }

  /** The entry for a URL that fails `validate_url`. */
  function InvalidEntry(p: Parsed): BulkEntry {
    BulkEntry(Some(p.url), "", "", p.customName, false, Some(INVALID_URL_MESSAGE))
  }

  /** The entry for a stored link: its code and public address. */
  function SuccessEntry(p: Parsed, code: string, env: BulkEnv): BulkEntry {
    BulkEntry(Some(p.url), code, ShortUrl(env.baseUrl, code), p.customName, true, None)
  }

  /** The random stream position after the allocator drew `a.checks` candidates. */
  function Advance(rng: nat, a: Allocation): nat {
    rng + a.checks * BULK_CODE_LENGTH
  }

  /** After the allocator ran (consuming `a.checks` candidates): an error entry, or the new row. */
  function Place(s: BulkState, url: Field, customName: Field, p: Parsed, env: BulkEnv, a: Allocation): BulkState {
    var t := s.(rng := Advance(s.rng, a));
    match a.code
    case None => WithFailure(t, RaisedEntry(url, customName, ALLOCATION_FAILED_MESSAGE))
    case Some(code) => Inserted(t, p, code, env)
  }

  /** The `INSERT INTO urls` of the item, with its success entry. */
  function Inserted(s: BulkState, p: Parsed, code: string, env: BulkEnv): BulkState {
    BulkState(
      s.urls + [NewUrl(s.nextId, code, env.cleanUrl(p.url), p.customName, None, env.now)],
      s.nextId + 1,
      s.rng,
      s.results + [SuccessEntry(p, code, env)],
      s.successCount + 1,
      s.failedCount)
  }

  /** The remaining passes of the loop. */
  function Run(s: BulkState, items: seq<BulkItem>, env: BulkEnv): Result<BulkState>
    decreases |items|
  {
    if items == [] then Ok(s)
    else
      match Step(s, items[0], env)
      case Fail(status) => Fail(status)
      case Ok(next) => Run(next, items[1..], env)
  }

  /** `request.get("urls", [])`; iterating a `null` raises. */
  function ItemsOf(request: UrlList): Result<seq<BulkItem>> {
    match request
    case Missing => Ok([])
    case NullList => Fail(SERVER_ERROR)
    case List(items) => Ok(items)
  }

  /** `total_count`: `len(request.get("urls", []))`. */
  function TotalCount(request: UrlList): nat {
    if request.List? then |request.items| else 0
  }

  /** The whole request: the final state, or the status it failed with. */
  function BulkRun(urls: seq<UrlRow>, nextId: nat, request: UrlList, env: BulkEnv, rng: nat, storeDown: bool): Result<BulkState> {
    if storeDown then Fail(SERVER_ERROR)
    else
      match ItemsOf(request)
      case Fail(status) => Fail(status)
      case Ok(items) => Run(BulkState(urls, nextId, rng, [], 0, 0), items, env)
  }

  // ---------------------------------------------------------------- bulk_generate_urls

  /**
   * `bulk_generate_urls`. The rows are inserted on one cursor, so each allocation sees the rows
   * the batch inserted before it; nothing is committed when the request fails.
   */
  method BulkGenerate(store: LinkStore, request: UrlList, env: BulkEnv, rng: nat, storeDown: bool)
    returns (r: Result<BulkResponse>)
    requires store.Valid()
    modifies store
    ensures store.Valid()
    ensures store.clicks == old(store.clicks)
    ensures var spec := BulkRun(old(store.urls), old(store.nextUrlId), request, env, rng, storeDown);
      && (spec.Fail? ==> r == Fail(SERVER_ERROR) && store.urls == old(store.urls))
      && (spec.Ok? ==>
            && r == Ok(BulkResponse(spec.value.successCount, spec.value.failedCount, TotalCount(request), spec.value.results))
            && store.urls == spec.value.urls
            && store.nextUrlId == spec.value.nextId)
  {
    if storeDown || request.NullList? {
      return Fail(SERVER_ERROR);
    }
    var items := if request.List? then request.items else [];
    var savedUrls, savedClicks, savedNextUrlId, savedNextClickId := store.urls, store.clicks, store.nextUrlId, store.nextClickId;
    ghost var initial := BulkState(store.urls, store.nextUrlId, rng, [], 0, 0);
    var results: seq<BulkEntry> := [];
    var successCount: nat := 0;
    var failedCount: nat := 0;
    var pos: nat := rng;
    for i := 0 to |items|
      invariant store.Valid()
      invariant store.clicks == savedClicks && store.nextClickId == savedNextClickId
      invariant Run(BulkState(store.urls, store.nextUrlId, pos, results, successCount, failedCount), items[i..], env)
        == Run(initial, items, env)
    {
      ghost var before := BulkState(store.urls, store.nextUrlId, pos, results, successCount, failedCount);
      assert items[i..][0] == items[i] && items[i..][1..] == items[i + 1..];
      var item := items[i];
      if item.NotAnObject? {
        store.Rollback(savedUrls, savedClicks, savedNextUrlId, savedNextClickId);
        return Fail(SERVER_ERROR);
      }
      results, successCount, failedCount, pos := ProcessItem(store, item.url, item.customName, env, results, successCount, failedCount, pos);
    }
    assert items[|items|..] == [];
    return Ok(BulkResponse(successCount, failedCount, TotalCount(request), results));
  }

  /** The body of the `try` block for one object item, on the store and the loop's variables. */
  method ProcessItem(store: LinkStore, url: Field, customName: Field, env: BulkEnv,
                     results: seq<BulkEntry>, successCount: nat, failedCount: nat, pos: nat)
    returns (results': seq<BulkEntry>, successCount': nat, failedCount': nat, pos': nat)
    requires store.Valid()
    modifies store
    ensures store.Valid()
    ensures store.clicks == old(store.clicks) && store.nextClickId == old(store.nextClickId)
    ensures ItemStep(BulkState(old(store.urls), old(store.nextUrlId), pos, results, successCount, failedCount), url, customName, env)
      == BulkState(store.urls, store.nextUrlId, pos', results', successCount', failedCount')
  {
    ghost var before := BulkState(store.urls, store.nextUrlId, pos, results, successCount, failedCount);
    results', successCount', failedCount', pos' := results, successCount, failedCount, pos;
    var parsed := ParseItem(url, customName);
    if parsed.None? {
      results' := results + [RaisedEntry(url, customName, NULL_STRIP_MESSAGE)];
      failedCount' := failedCount + 1;
      assert ItemStep(before, url, customName, env) == WithFailure(before, RaisedEntry(url, customName, NULL_STRIP_MESSAGE));
    } else if |parsed.value.url| == 0 {
      assert ItemStep(before, url, customName, env) == before;
    } else if !env.validUrl(parsed.value.url) {
      results' := results + [InvalidEntry(parsed.value)];
      failedCount' := failedCount + 1;
      assert ItemStep(before, url, customName, env) == WithFailure(before, InvalidEntry(parsed.value));
    } else {
      results', successCount', failedCount', pos' := PlaceItem(store, url, customName, parsed.value, env, results, successCount, failedCount, pos);
      assert ItemStep(before, url, customName, env)
        == Place(before, url, customName, parsed.value, env, Allocate(before.urls, env.pick, pos, BULK_CODE_LENGTH, MAX_ATTEMPTS));
    }
  }

  /** The allocation and the `INSERT` for an item whose URL passed validation. */
  method PlaceItem(store: LinkStore, url: Field, customName: Field, p: Parsed, env: BulkEnv,
                   results: seq<BulkEntry>, successCount: nat, failedCount: nat, pos: nat)
    returns (results': seq<BulkEntry>, successCount': nat, failedCount': nat, pos': nat)
    requires store.Valid()
    modifies store
    ensures store.Valid()
    ensures store.clicks == old(store.clicks) && store.nextClickId == old(store.nextClickId)
    ensures Place(BulkState(old(store.urls), old(store.nextUrlId), pos, results, successCount, failedCount), url, customName, p, env,
                  Allocate(old(store.urls), env.pick, pos, BULK_CODE_LENGTH, MAX_ATTEMPTS))
      == BulkState(store.urls, store.nextUrlId, pos', results', successCount', failedCount')
  {
    ghost var before := BulkState(store.urls, store.nextUrlId, pos, results, successCount, failedCount);
    var a := AllocateBulk(store, env.pick, pos, BULK_CODE_LENGTH);
    pos' := Advance(pos, a);
    ghost var drawn := before.(rng := pos');
    successCount', failedCount' := successCount, failedCount;
    if a.code.None? {
      var e := RaisedEntry(url, customName, ALLOCATION_FAILED_MESSAGE);
      results' := results + [e];
      failedCount' := failedCount + 1;
      assert Place(before, url, customName, p, env, a) == WithFailure(drawn, e);
    } else {
      var code := a.code.value;
      var inserted := store.InsertUrl(code, env.cleanUrl(p.url), p.customName, None, env.now);
      results' := results + [SuccessEntry(p, code, env)];
      successCount' := successCount + 1;
      assert Place(before, url, customName, p, env, a) == Inserted(drawn, p, code, env);
    }
  }

  // ---------------------------------------------------------------- properties of a batch

  function IsSuccess(e: BulkEntry): bool { e.success }

  /** The success entries, in order. */
  function Successes(results: seq<BulkEntry>): seq<BulkEntry> {
    Filter(results, IsSuccess)
  }

  /** A success entry and the row inserted for it agree: code, cleaned URL, name, public address. */
  ghost predicate EntryMatchesRow(e: BulkEntry, row: UrlRow, env: BulkEnv) {
    && e.success
    && e.originalUrl.Some?
    && row.shortCode == e.shortCode
    && row.originalUrl == env.cleanUrl(e.originalUrl.value)
    && row.customName == e.customName
    && row.isActive
    && e.shortUrl == ShortUrl(env.baseUrl, e.shortCode)
  }

  ghost predicate RowsMatch(rows: seq<UrlRow>, entries: seq<BulkEntry>, env: BulkEnv) {
    |rows| == |entries| && forall k | 0 <= k < |rows| :: EntryMatchesRow(entries[k], rows[k], env)
  }

  /**
   * What holds after every pass: the counters add up to the entries, the table is the table
   * before the batch followed by one row per success entry, and codes stay unique.
   */
  ghost predicate Accounted(base: seq<UrlRow>, s: BulkState, env: BulkEnv) {
    && s.successCount + s.failedCount == |s.results|
    && s.successCount == |Successes(s.results)|
    && base <= s.urls
    && RowsMatch(s.urls[|base|..], Successes(s.results), env)
    && UniqueCodes(s.urls)
  }

  lemma SuccessesAppend(results: seq<BulkEntry>, e: BulkEntry)
    ensures Successes(results + [e]) == Successes(results) + (if e.success then [e] else [])
  {
    FilterConcat(results, [e], IsSuccess);
    assert [e][1..] == [];
  }

  lemma WithFailureAccounted(base: seq<UrlRow>, s: BulkState, e: BulkEntry, env: BulkEnv)
    requires Accounted(base, s, env) && !e.success
    ensures Accounted(base, WithFailure(s, e), env)
  {
    SuccessesAppend(s.results, e);
  }

  lemma InsertedAccounted(base: seq<UrlRow>, s: BulkState, p: Parsed, code: string, env: BulkEnv)
    requires Accounted(base, s, env) && !HasCode(s.urls, code)
    ensures Accounted(base, Inserted(s, p, code, env), env)
  {
    var t := Inserted(s, p, code, env);
    var e := SuccessEntry(p, code, env);
    var row := t.urls[|s.urls|];
    SuccessesAppend(s.results, e);
    assert t.urls[|base|..] == s.urls[|base|..] + [row];
    assert EntryMatchesRow(e, row, env);
    forall i, j | 0 <= i < j < |t.urls| ensures t.urls[i].shortCode != t.urls[j].shortCode {
      if j == |s.urls| {
        assert t.urls[i] == s.urls[i];
      }
    }
  }

  lemma {:induction false} StepAccounted(base: seq<UrlRow>, s: BulkState, item: BulkItem, env: BulkEnv)
    requires Accounted(base, s, env)
    requires Step(s, item, env).Ok?
    ensures Accounted(base, Step(s, item, env).value, env)
    ensures |Step(s, item, env).value.results| <= |s.results| + 1
  {
    var parsed := ParseItem(item.url, item.customName);
    if parsed.None? {
      WithFailureAccounted(base, s, RaisedEntry(item.url, item.customName, NULL_STRIP_MESSAGE), env);
    } else if |parsed.value.url| == 0 {
    } else if !env.validUrl(parsed.value.url) {
      WithFailureAccounted(base, s, InvalidEntry(parsed.value), env);
    } else {
      var a := Allocate(s.urls, env.pick, s.rng, BULK_CODE_LENGTH, MAX_ATTEMPTS);
      var t := s.(rng := Advance(s.rng, a));
      if a.code.None? {
        WithFailureAccounted(base, t, RaisedEntry(item.url, item.customName, ALLOCATION_FAILED_MESSAGE), env);
      } else {
        InsertedAccounted(base, t, parsed.value, a.code.value, env);
      }
    }
  }

  lemma {:induction false} RunAccounted(base: seq<UrlRow>, s: BulkState, items: seq<BulkItem>, env: BulkEnv)
    requires Accounted(base, s, env)
    requires Run(s, items, env).Ok?
    ensures Accounted(base, Run(s, items, env).value, env)
    ensures |Run(s, items, env).value.results| <= |s.results| + |items|
    decreases |items|
  {
    if items != [] {
      StepAccounted(base, s, items[0], env);
      RunAccounted(base, Step(s, items[0], env).value, items[1..], env);
    }
  }

  /**
   * A completed batch: `success_count + failed_count == len(results) <= total_count`; the table
   * gained exactly one row per success entry, in order, carrying that entry's code, the cleaned
   * URL and the name, and each entry's `short_url` is `BASE_URL/code`; the codes handed out are
   * pairwise distinct and were not in the table before.
   */
  lemma BatchFacts(urls: seq<UrlRow>, nextId: nat, request: UrlList, env: BulkEnv, rng: nat, storeDown: bool)
    requires UniqueCodes(urls)
    requires BulkRun(urls, nextId, request, env, rng, storeDown).Ok?
    ensures var t := BulkRun(urls, nextId, request, env, rng, storeDown).value;
      && t.successCount + t.failedCount == |t.results| <= TotalCount(request)
      && urls <= t.urls
      && RowsMatch(t.urls[|urls|..], Successes(t.results), env)
      && t.successCount == |t.urls| - |urls|
    ensures var succ := Successes(BulkRun(urls, nextId, request, env, rng, storeDown).value.results);
      && (forall k | 0 <= k < |succ| :: !HasCode(urls, succ[k].shortCode))
      && (forall k, l | 0 <= k < l < |succ| :: succ[k].shortCode != succ[l].shortCode)
  {
    var items := ItemsOf(request).value;
    var init := BulkState(urls, nextId, rng, [], 0, 0);
    assert urls[|urls|..] == [];
    RunAccounted(urls, init, items, env);
    var t := Run(init, items, env).value;
    var succ := Successes(t.results);
    var rows := t.urls[|urls|..];
    forall k | 0 <= k < |succ| ensures !HasCode(urls, succ[k].shortCode) {
      assert t.urls[|urls| + k] == rows[k];
      forall i | 0 <= i < |urls| ensures urls[i].shortCode != succ[k].shortCode {
        assert t.urls[i] == urls[i];
      }
    }
    forall k, l | 0 <= k < l < |succ| ensures succ[k].shortCode != succ[l].shortCode {
      assert t.urls[|urls| + k] == rows[k] && t.urls[|urls| + l] == rows[l];
    }
  }

  /**
   * An item whose `custom_name` is `null` (what the page's own script sends for an empty name)
   * always fails, even when its URL is empty, and inserts nothing.
   */
  lemma NullCustomNameFails(s: BulkState, url: Field, env: BulkEnv)
    ensures Step(s, Item(url, Null), env) == Ok(WithFailure(s, RaisedEntry(url, Null, NULL_STRIP_MESSAGE)))
  {
  }

  /** An item whose URL is missing or only whitespace is skipped: no entry, no counter, no row. */
  lemma BlankUrlSkipped(s: BulkState, url: Field, customName: Field, env: BulkEnv)
    requires url.Absent? || (url.Text? && forall k | 0 <= k < |url.text| :: IsSpace(url.text[k]))
    requires !customName.Null?
    ensures Step(s, Item(url, customName), env) == Ok(s)
  {
    if url.Text? {
      StripEmptyIff(url.text);
    }
    assert ParseItem(url, customName).value.url == [];
  }

  /**
   * An exhausted allocator fails only its own item: the entry records the raw fields and the
   * error, the random stream has moved on 50 candidates, and the table is unchanged.
   */
  lemma AllocationFailureContained(s: BulkState, url: Field, customName: Field, env: BulkEnv)
    requires ParseItem(url, customName).Some?
    requires var p := ParseItem(url, customName).value; p.url != "" && env.validUrl(p.url)
    requires Allocate(s.urls, env.pick, s.rng, BULK_CODE_LENGTH, MAX_ATTEMPTS).code.None?
    ensures Step(s, Item(url, customName), env) == Ok(WithFailure(
      s.(rng := s.rng + MAX_ATTEMPTS * BULK_CODE_LENGTH), RaisedEntry(url, customName, ALLOCATION_FAILED_MESSAGE)))
  {
    var p := ParseItem(url, customName).value;
    var a := Allocate(s.urls, env.pick, s.rng, BULK_CODE_LENGTH, MAX_ATTEMPTS);
    AllocateExhausted(s.urls, env.pick, s.rng, BULK_CODE_LENGTH, MAX_ATTEMPTS);
    assert Advance(s.rng, a) == s.rng + MAX_ATTEMPTS * BULK_CODE_LENGTH;
    assert ItemStep(s, url, customName, env) == Place(s, url, customName, p, env, a);
  }
}

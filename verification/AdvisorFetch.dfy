/** Fetching Advisor recommendations: paging and retries per subscription, and the semaphore that lets
    four subscriptions run at a time. The service is a given content per URL and an arbitrary fault per
    call; the clock is left out. */
module AdvisorFetch {
  import opened Collections
  import Markers

  const MAX_PAGES := 5
  const MAX_ATTEMPTS := 4
  const MAX_ROWS := 500
  const CONCURRENCY := 4
  const UNREADABLE := "Azure Advisor returned an unreadable response."

  const TRANSIENT_TOKENS := ["429", "throttl", "500", "502", "503", "504", "timeout"]

  /** The test on an error text that makes it worth a retry. */
  predicate HasTransientToken(error: string) {
    exists t <- TRANSIENT_TOKENS :: Markers.IndexFrom(Markers.Lower(error), t, 0) != -1
  }

  predicate IsToken(t: string) {
    || t == "429" || t == "throttl" || t == "500" || t == "502" || t == "503" || t == "504" || t == "timeout"
  }

  predicate TokenAt(error: string, t: string, i: int) {
    IsToken(t) && Markers.OccursAt(t, Markers.Lower(error), i)
  }

  lemma TokenFound(error: string) returns (t: string, i: int)
    requires HasTransientToken(error)
    ensures TokenAt(error, t, i)
  {
    t :| t in TRANSIENT_TOKENS && Markers.IndexFrom(Markers.Lower(error), t, 0) != -1;
    TokensAre(t);
    i := Markers.IndexFrom(Markers.Lower(error), t, 0);
  }

  lemma TokenIsFound(error: string, t: string, i: int)
    requires TokenAt(error, t, i)
    ensures HasTransientToken(error)
  {
    TokensAre(t);
    assert Markers.IndexFrom(Markers.Lower(error), t, 0) != -1;
  }

  /** An error is worth a retry exactly if one of these stands in it, letters of either case. */
  lemma TransientIff(error: string)
    ensures HasTransientToken(error) <==> exists t, i :: TokenAt(error, t, i)
  {
    if HasTransientToken(error) {
      var t, i := TokenFound(error);
    } else {
      forall t, i
        ensures !TokenAt(error, t, i)
      {
        if TokenAt(error, t, i) {
          TokenIsFound(error, t, i);
        }
      }
    }
  }

  lemma TokensAre(t: string)
    ensures t in TRANSIENT_TOKENS <==> IsToken(t)
  {
    assert TRANSIENT_TOKENS[0] == "429" && TRANSIENT_TOKENS[1] == "throttl" && TRANSIENT_TOKENS[2] == "500";
    assert TRANSIENT_TOKENS[3] == "502" && TRANSIENT_TOKENS[4] == "503" && TRANSIENT_TOKENS[5] == "504";
    assert TRANSIENT_TOKENS[6] == "timeout";
  }

  /** A decoded page: the values that are objects, as rows, and the link to the next page if any. */
  datatype Payload<R> = Payload(rows: seq<R>, nextLink: string)

  /** `faults(n)` is the error of the n-th call made for a subscription, empty for none; `retried` tells
      which errors are worth another attempt. */
  datatype Faults = Faults(at: nat -> string, retried: string -> bool) {
    predicate Transient(n: nat) { at(n) != "" && retried(at(n)) }
    predicate Permanent(n: nat) { at(n) != "" && !retried(at(n)) }
  }

  /** `content(url)` is what the service holds there, unreadable or a page. */
  datatype Service<!R> = Service(content: string -> Option<Payload<R>>, faults: Faults)

  /** The service as the tool sees it, for any schedule of error texts. */
  function Azure<R>(content: string -> Option<Payload<R>>, errors: nat -> string): Service<R> {
    Service(content, Faults(errors, e => HasTransientToken(e)))
  }

  datatype Outcome<R> = Outcome(rows: seq<R>, error: string)

  function Cut(s: string): string {
    if |s| <= 300 then s else s[..300]
  }

  function First<R>(rows: seq<R>): seq<R> {
    if |rows| <= MAX_ROWS then rows else rows[..MAX_ROWS]
  }

  // ----- One call at a time -----

  datatype Fetch<R> =
    | Fetching(url: string, page: nat, attempt: nat, rows: seq<R>, calls: nat)
    | Finished(outcome: Outcome<R>, calls: nat)

  predicate Valid<R>(f: Fetch<R>) {
    f.Fetching? ==> f.page < MAX_PAGES && f.attempt < MAX_ATTEMPTS && |f.rows| < MAX_ROWS
                    && f.calls <= MAX_ATTEMPTS * f.page + f.attempt
  }

  function Start<R>(url: string): (f: Fetch<R>)
    ensures Valid(f)
  {
    Fetching(url, 0, 0, [], 0)
  }

  /** What one call to the service makes of an unfinished fetch. */
  function Call<R>(s: Service<R>, f: Fetch<R>): Fetch<R>
    requires f.Fetching?
  {
    var error, calls := s.faults.at(f.calls), f.calls + 1;
    if s.faults.Transient(f.calls) && f.attempt < MAX_ATTEMPTS - 1 then f.(attempt := f.attempt + 1, calls := calls)
    else if error != "" then Finished(Outcome([], Cut(error)), calls)
    else Took(s.content(f.url), f.page, f.rows, calls)
  }

  /** What the fetch makes of the content of page number `page`, with `calls` calls made. */
  function Took<R>(content: Option<Payload<R>>, page: nat, rows: seq<R>, calls: nat): Fetch<R> {
    match content
    case None => Finished(Outcome([], UNREADABLE), calls)
    case Some(payload) =>
      var all := rows + payload.rows;
      if |all| >= MAX_ROWS then Finished(Outcome(First(all), ""), calls)
      else if payload.nextLink == "" || page == MAX_PAGES - 1 then Finished(Outcome(all, ""), calls)
      else Fetching(payload.nextLink, page + 1, 0, all, calls)
  }

  /** How many calls an unfinished fetch can still make at most. */
  function Budget<R>(f: Fetch<R>): nat
    requires Valid(f)
  {
    if f.Finished? then 0 else MAX_ATTEMPTS * MAX_PAGES - (MAX_ATTEMPTS * f.page + f.attempt)
  }

  lemma CallKeepsValid<R>(s: Service<R>, f: Fetch<R>)
    requires Valid(f) && f.Fetching?
    ensures Valid(Call(s, f)) && Budget(Call(s, f)) < Budget(f) && Call(s, f).calls == f.calls + 1
  {
  }

  /** The fetch carried on to its end. */
  function Complete<R>(s: Service<R>, f: Fetch<R>): (end: Fetch<R>)
    requires Valid(f)
    ensures end.Finished?
    decreases Budget(f)
  {
    if f.Finished? then f else
    CallKeepsValid(s, f);
    Complete(s, Call(s, f))
  }

  /** No schedule of faults makes a subscription cost more than twenty calls. */
  lemma {:induction false} AtMostTwentyCalls<R>(s: Service<R>, f: Fetch<R>)
    requires Valid(f) && (f.Finished? ==> f.calls <= MAX_ATTEMPTS * MAX_PAGES)
    ensures Complete(s, f).calls <= f.calls + Budget(f)
    ensures Complete(s, f).calls <= MAX_ATTEMPTS * MAX_PAGES == 20
    decreases Budget(f)
  {
    if f.Fetching? {
      CallKeepsValid(s, f);
      AtMostTwentyCalls(s, Call(s, f));
    }
  }

  lemma LongEnough<R>(rows: seq<R>, more: seq<R>)
    requires |rows| == MAX_ROWS
    ensures First(rows + more) == rows
  {
  }

  lemma RetryGoesOn<R>(s: Service<R>, f: Fetch<R>)
    requires Valid(f) && f.Fetching? && s.faults.Transient(f.calls) && f.attempt < MAX_ATTEMPTS - 1
    ensures Complete(s, f) == Complete(s, Fetching(f.url, f.page, f.attempt + 1, f.rows, f.calls + 1))
  {
    CallKeepsValid(s, f);
  }

  /** A call that is not to be repeated ends the page: with its error, or with what is there to read. */
  lemma LastCallDecides<R>(s: Service<R>, last: Fetch<R>)
    requires Valid(last) && last.Fetching?
    requires !(s.faults.Transient(last.calls) && last.attempt < MAX_ATTEMPTS - 1)
    ensures Valid(Took(s.content(last.url), last.page, last.rows, last.calls + 1))
    ensures var error := s.faults.at(last.calls);
            Complete(s, last) == if error == "" then Complete(s, Took(s.content(last.url), last.page, last.rows, last.calls + 1))
                                 else Finished(Outcome([], Cut(error)), last.calls + 1)
  {
    CallKeepsValid(s, last);
  }

  /** The attempts at one page. */
  method FetchPage<R>(s: Service<R>, url: string, page: nat, rows: seq<R>, calls: nat)
    returns (error: string, calls': nat)
    requires page < MAX_PAGES && |rows| < MAX_ROWS && calls <= MAX_ATTEMPTS * page
    ensures calls < calls' <= MAX_ATTEMPTS * (page + 1) && Valid(Took(s.content(url), page, rows, calls'))
    ensures Complete(s, Fetching(url, page, 0, rows, calls)) ==
            if error == "" then Complete(s, Took(s.content(url), page, rows, calls'))
            else Finished(Outcome([], Cut(error)), calls')
  {
    calls', error := calls, "";
    ghost var first := Fetching(url, page, 0, rows, calls);
    ghost var last := first;
    var attempt := 0;
    while true
      invariant attempt < MAX_ATTEMPTS && calls' == calls + attempt
      invariant last == Fetching(url, page, attempt, rows, calls')
      invariant Complete(s, first) == Complete(s, last)
      decreases MAX_ATTEMPTS - attempt
    {
      error := s.faults.at(calls');
      var transient := s.faults.Transient(calls');
      calls' := calls' + 1;
      if !transient || attempt == MAX_ATTEMPTS - 1 {
        LastCallDecides(s, last);
        return;
      }
      RetryGoesOn(s, last);
      attempt := attempt + 1;
      last := Fetching(url, page, attempt, rows, calls');
    }
  }

  /** Appends the rows of a page, stopping at the limit. */
  method AppendRows<R>(rows: seq<R>, values: seq<R>) returns (all: seq<R>)
    requires |rows| < MAX_ROWS
    ensures all == First(rows + values)
  {
    all := rows;
    for i := 0 to |values|
      invariant all == rows + values[..i] && |all| < MAX_ROWS
    {
      all := all + [values[i]];
      assert values == values[..i + 1] + values[i + 1..] && values[..i + 1] == values[..i] + [values[i]];
      if |all| >= MAX_ROWS {
        assert rows + values == all + values[i + 1..];
        LongEnough(all, values[i + 1..]);
        return;
      }
    }
    assert values[..|values|] == values;
  }

  /** `_subscription_recommendations`: pages, attempts and rows in nested loops. */
  method FetchSubscription<R>(s: Service<R>, start: string) returns (outcome: Outcome<R>, calls: nat)
    ensures Finished(outcome, calls) == Complete(s, Start(start))
  {
    var url, rows: seq<R>, page := start, [], 0;
    calls := 0;
    while page < MAX_PAGES
      invariant page <= MAX_PAGES && |rows| < MAX_ROWS && calls <= MAX_ATTEMPTS * page
      invariant page < MAX_PAGES ==> Complete(s, Start(start)) == Complete(s, Fetching(url, page, 0, rows, calls))
      invariant page == MAX_PAGES ==> Complete(s, Start(start)) == Finished(Outcome(rows, ""), calls)
    {
      var error;
      error, calls := FetchPage(s, url, page, rows, calls);
      if error != "" {
        return Outcome([], Cut(error)), calls;
      }
      var payload := s.content(url);
      if payload.None? {
        return Outcome([], UNREADABLE), calls;
      }
      rows := AppendRows(rows, payload.value.rows);
      if |rows| >= MAX_ROWS {
        return Outcome(rows, ""), calls;
      }
      if payload.value.nextLink == "" {
        return Outcome(rows, ""), calls;
      }
      url := payload.value.nextLink;
      page := page + 1;
    }
    outcome := Outcome(rows, "");
  }

  // ----- Faults that heal leave no trace -----

  /** What the subscription holds: the rows of up to `n` pages, following the links, up to the limit. */
  function Gathered<R>(content: string -> Option<Payload<R>>, url: string, n: nat, rows: seq<R>): Outcome<R>
    decreases n
  {
    if n == 0 then Outcome(rows, "") else
    match content(url)
    case None => Outcome([], UNREADABLE)
    case Some(page) =>
      var all := rows + page.rows;
      if |all| >= MAX_ROWS then Outcome(First(all), "")
      else if page.nextLink == "" then Outcome(all, "")
      else Gathered(content, page.nextLink, n - 1, all)
  }

  /** The error that ends the attempts at a page whose first call is number `calls`; empty if one succeeds. */
  function PageError(faults: Faults, calls: nat, attempt: nat): string
    requires attempt < MAX_ATTEMPTS
    decreases MAX_ATTEMPTS - attempt
  {
    if faults.Transient(calls) && attempt < MAX_ATTEMPTS - 1 then PageError(faults, calls + 1, attempt + 1)
    else faults.at(calls)
  }

  /** Every call from `lo` up to `hi` meets a fault worth a retry. */
  predicate AllTransient(faults: Faults, lo: nat, hi: nat) {
    forall n: nat | lo <= n < hi :: faults.Transient(n)
  }

  /** Within the calls from `lo` up to `hi`: transient faults to the end, or up to a permanent one. */
  ghost predicate Exhausted(faults: Faults, lo: nat, hi: nat) {
    AllTransient(faults, lo, hi) || exists n: nat :: lo <= n < hi && faults.Permanent(n) && AllTransient(faults, lo, n)
  }

  /** A page fails exactly when one of its calls meets a permanent error after transient ones only, or
      when all four calls meet transient errors. */
  lemma {:induction false} PageFailsIff(faults: Faults, calls: nat, attempt: nat)
    requires attempt < MAX_ATTEMPTS
    ensures PageError(faults, calls, attempt) != "" <==> Exhausted(faults, calls, calls + MAX_ATTEMPTS - attempt)
    decreases MAX_ATTEMPTS - attempt
  {
    var end := calls + MAX_ATTEMPTS - attempt;
    if faults.Transient(calls) && attempt < MAX_ATTEMPTS - 1 {
      PageFailsIff(faults, calls + 1, attempt + 1);
      assert AllTransient(faults, calls, end) <==> AllTransient(faults, calls + 1, end);
      assert forall n: nat | n > calls :: AllTransient(faults, calls, n) <==> AllTransient(faults, calls + 1, n);
      if n: nat :| calls <= n < end && faults.Permanent(n) && AllTransient(faults, calls, n) {
        assert n != calls;
      }
    } else if faults.Permanent(calls) {
      assert AllTransient(faults, calls, calls);
    } else if faults.at(calls) == "" {
      assert !AllTransient(faults, calls, end);
    } else {
      assert AllTransient(faults, calls, end);
    }
  }

  /** Some page that the fault-free walk reads is not read within its attempts. */
  ghost predicate Fails<R>(s: Service<R>, url: string, n: nat, rows: seq<R>, calls: nat)
    decreases n
  {
    n > 0 &&
    (|| PageError(s.faults, calls, 0) != ""
     || var page := s.content(url);
        && page.Some? && |rows + page.value.rows| < MAX_ROWS && page.value.nextLink != ""
        && Fails(s, page.value.nextLink, n - 1, rows + page.value.rows, calls + CallsFor(s.faults, calls, 0)))
  }

  /** The same in terms of the schedule: some page that the fault-free walk reads is exhausted. */
  ghost predicate Broken<R>(s: Service<R>, url: string, n: nat, rows: seq<R>, calls: nat)
    decreases n
  {
    n > 0 &&
    (|| Exhausted(s.faults, calls, calls + MAX_ATTEMPTS)
     || var page := s.content(url);
        && page.Some? && |rows + page.value.rows| < MAX_ROWS && page.value.nextLink != ""
        && Broken(s, page.value.nextLink, n - 1, rows + page.value.rows, calls + CallsFor(s.faults, calls, 0)))
  }

  lemma {:induction false} FailsIffBroken<R>(s: Service<R>, url: string, n: nat, rows: seq<R>, calls: nat)
    ensures Fails(s, url, n, rows, calls) <==> Broken(s, url, n, rows, calls)
    decreases n
  {
    if n > 0 {
      PageFailsIff(s.faults, calls, 0);
      var page := s.content(url);
      if page.Some? {
        FailsIffBroken(s, page.value.nextLink, n - 1, rows + page.value.rows, calls + CallsFor(s.faults, calls, 0));
      }
    }
  }

  /** How many calls a page takes. */
  function CallsFor(faults: Faults, calls: nat, attempt: nat): (k: nat)
    requires attempt < MAX_ATTEMPTS
    ensures 1 <= k <= MAX_ATTEMPTS - attempt
    decreases MAX_ATTEMPTS - attempt
  {
    if faults.Transient(calls) && attempt < MAX_ATTEMPTS - 1 then 1 + CallsFor(faults, calls + 1, attempt + 1) else 1
  }

  /** The last of these calls is the one that decides. */
  lemma {:induction false} LastAttempt(faults: Faults, calls: nat, attempt: nat)
    requires attempt < MAX_ATTEMPTS
    ensures var k := CallsFor(faults, calls, attempt);
            && faults.at(calls + k - 1) == PageError(faults, calls, attempt)
            && !(faults.Transient(calls + k - 1) && attempt + k - 1 < MAX_ATTEMPTS - 1)
    decreases MAX_ATTEMPTS - attempt
  {
    if faults.Transient(calls) && attempt < MAX_ATTEMPTS - 1 {
      LastAttempt(faults, calls + 1, attempt + 1);
    }
  }

  lemma {:induction false} RetriesGoOn<R>(s: Service<R>, f: Fetch<R>)
    requires Valid(f) && f.Fetching?
    ensures var k := CallsFor(s.faults, f.calls, f.attempt);
            Complete(s, f) == Complete(s, Fetching(f.url, f.page, f.attempt + k - 1, f.rows, f.calls + k - 1))
    decreases MAX_ATTEMPTS - f.attempt
  {
    if s.faults.Transient(f.calls) && f.attempt < MAX_ATTEMPTS - 1 {
      RetryGoesOn(s, f);
      RetriesGoOn(s, Fetching(f.url, f.page, f.attempt + 1, f.rows, f.calls + 1));
    }
  }

  /** A page whose attempts are used up ends the fetch with an error; any other page is read as if there were
      no faults. */
  lemma PageIsRead<R>(s: Service<R>, url: string, page: nat, rows: seq<R>, calls: nat)
    requires page < MAX_PAGES && |rows| < MAX_ROWS && calls <= MAX_ATTEMPTS * page
    ensures var f := Fetching(url, page, 0, rows, calls);
            var next := Took(s.content(url), page, rows, calls + CallsFor(s.faults, calls, 0));
            && Valid(next)
            && if PageError(s.faults, calls, 0) != ""
               then Complete(s, f).outcome.error != "" && Complete(s, f).outcome.rows == []
               else Complete(s, f) == Complete(s, next)
  {
    var k := CallsFor(s.faults, calls, 0);
    LastAttempt(s.faults, calls, 0);
    RetriesGoOn(s, Fetching(url, page, 0, rows, calls));
    LastCallDecides(s, Fetching(url, page, k - 1, rows, calls + k - 1));
  }

  /** What one page adds to what is gathered, and to the chance of failing. */
  lemma GatheredOnce<R>(content: string -> Option<Payload<R>>, url: string, page: nat, rows: seq<R>, calls: nat)
    requires page < MAX_PAGES
    ensures var next, held := Took(content(url), page, rows, calls), Gathered(content, url, MAX_PAGES - page, rows);
            held == if next.Finished? then next.outcome
                    else Gathered(content, next.url, MAX_PAGES - page - 1, next.rows)
  {
  }

  lemma FailsOnce<R>(s: Service<R>, url: string, page: nat, rows: seq<R>, calls: nat)
    requires page < MAX_PAGES
    ensures var next := Took(s.content(url), page, rows, calls + CallsFor(s.faults, calls, 0));
            Fails(s, url, MAX_PAGES - page, rows, calls) <==>
            || PageError(s.faults, calls, 0) != ""
            || (next.Fetching? && Fails(s, next.url, MAX_PAGES - page - 1, next.rows, next.calls))
  {
    if page == MAX_PAGES - 1 && s.content(url).Some? {
      var payload := s.content(url).value;
      assert !Fails(s, payload.nextLink, 0, rows + payload.rows, calls + CallsFor(s.faults, calls, 0));
    }
  }

  /** What an unfinished fetch comes to from its next page on. */
  function Outlook<R>(s: Service<R>, url: string, page: nat, rows: seq<R>, calls: nat): Outcome<R>
    requires page < MAX_PAGES && |rows| < MAX_ROWS && calls <= MAX_ATTEMPTS * page
  {
    Complete(s, Fetching(url, page, 0, rows, calls)).outcome
  }

  /** The outcome is what is held or, if a page is broken, an error. */
  ghost predicate AsHeld<R>(fails: bool, end: Outcome<R>, held: Outcome<R>) {
    if fails then end.error != "" && end.rows == [] else end == held
  }

  lemma OnePageOn<R>(s: Service<R>, url: string, page: nat, rows: seq<R>, calls: nat)
    returns (next: Fetch<R>)
    requires page < MAX_PAGES && |rows| < MAX_ROWS && calls <= MAX_ATTEMPTS * page
    ensures Valid(next) && (next.Fetching? ==> next.page == page + 1 && next.attempt == 0)
    ensures var end := Outlook(s, url, page, rows, calls);
            if PageError(s.faults, calls, 0) != "" then end.error != "" && end.rows == []
            else if next.Finished? then end == next.outcome
            else next.calls <= MAX_ATTEMPTS * next.page && end == Outlook(s, next.url, next.page, next.rows, next.calls)
    ensures var held := Gathered(s.content, url, MAX_PAGES - page, rows);
            held == if next.Finished? then next.outcome else Gathered(s.content, next.url, MAX_PAGES - page - 1, next.rows)
    ensures Fails(s, url, MAX_PAGES - page, rows, calls) <==>
            || PageError(s.faults, calls, 0) != ""
            || (next.Fetching? && Fails(s, next.url, MAX_PAGES - page - 1, next.rows, next.calls))
  {
    next := Took(s.content(url), page, rows, calls + CallsFor(s.faults, calls, 0));
    PageIsRead(s, url, page, rows, calls);
    GatheredOnce(s.content, url, page, rows, calls + CallsFor(s.faults, calls, 0));
    FailsOnce(s, url, page, rows, calls);
  }

  lemma {:induction false} FetchEndsAsHeld<R>(s: Service<R>, url: string, page: nat, rows: seq<R>, calls: nat)
    requires page < MAX_PAGES && |rows| < MAX_ROWS && calls <= MAX_ATTEMPTS * page
    ensures AsHeld(Fails(s, url, MAX_PAGES - page, rows, calls), Outlook(s, url, page, rows, calls),
                   Gathered(s.content, url, MAX_PAGES - page, rows))
    decreases MAX_PAGES - page
  {
    var next := OnePageOn(s, url, page, rows, calls);
    if PageError(s.faults, calls, 0) == "" && next.Fetching? {
      FetchEndsAsHeld(s, next.url, page + 1, next.rows, next.calls);
    }
  }

  /** For every fault schedule: unless a page it needs meets a permanent error after transient ones only, or
      four transient ones in a row, a fetch ends with what the subscription holds; otherwise it ends with
      an error. */
  lemma FaultsDoNotMatter<R>(s: Service<R>, url: string)
    ensures AsHeld(Broken(s, url, MAX_PAGES, [], 0), Complete(s, Start(url)).outcome, Gathered(s.content, url, MAX_PAGES, []))
  {
    FetchEndsAsHeld(s, url, 0, [], 0);
    FailsIffBroken(s, url, MAX_PAGES, [], 0);
  }

  /** All rows of up to `n` readable pages, following the links. */
  function PagesOf<R>(content: string -> Option<Payload<R>>, url: string, n: nat): seq<R>
    decreases n
  {
    if n == 0 || content(url).None? then [] else
    var page := content(url).value;
    page.rows + if page.nextLink == "" then [] else PagesOf(content, page.nextLink, n - 1)
  }

  /** A subscription's rows are the first 500 of its first five pages. */
  lemma {:induction false} GatheredIsThePrefix<R>(content: string -> Option<Payload<R>>, url: string, n: nat, rows: seq<R>)
    requires |rows| < MAX_ROWS && Gathered(content, url, n, rows).error == ""
    ensures Gathered(content, url, n, rows).rows == First(rows + PagesOf(content, url, n))
    decreases n
  {
    if n == 0 {
      assert rows + [] == rows;
    } else {
      var page := content(url).value;
      var all := rows + page.rows;
      if |all| >= MAX_ROWS {
        var more := PagesOf(content, url, n)[|page.rows|..];
        assert rows + PagesOf(content, url, n) == all + more;
        assert (all + more)[..MAX_ROWS] == all[..MAX_ROWS];
      } else if page.nextLink == "" {
        assert page.rows + [] == page.rows;
      } else {
        GatheredIsThePrefix(content, page.nextLink, n - 1, all);
        assert rows + PagesOf(content, url, n) == all + PagesOf(content, page.nextLink, n - 1);
      }
    }
  }

  // ----- What the pages of a subscription are -----

  /** The pages that follow each other from `url` on: each is what stands at the link of the one before, up to
      `n` of them, to one without a link, or to one that cannot be read. */
  ghost predicate Follow<R>(content: string -> Option<Payload<R>>, url: string, n: nat, pages: seq<Payload<R>>) {
    && |pages| <= n
    && (pages != [] ==> content(url) == Some(pages[0]))
    && (forall k | 0 <= k < |pages| - 1 :: pages[k].nextLink != "" && content(pages[k].nextLink) == Some(pages[k + 1]))
    && (|pages| < n && pages != [] && pages[|pages| - 1].nextLink != "" ==> content(pages[|pages| - 1].nextLink).None?)
    && (|pages| < n && pages == [] ==> content(url).None?)
  }

  function RowsOf<R>(pages: seq<Payload<R>>): seq<R> {
    if pages == [] then [] else pages[0].rows + RowsOf(pages[1..])
  }

  lemma OnePageMore<R>(content: string -> Option<Payload<R>>, url: string, n: nat, page: Payload<R>, rest: seq<Payload<R>>)
    requires n > 0 && content(url) == Some(page) && page.nextLink != "" && Follow(content, page.nextLink, n - 1, rest)
    ensures Follow(content, url, n, [page] + rest)
  {
    var pages := [page] + rest;
    forall k | 0 <= k < |pages| - 1
      ensures pages[k].nextLink != "" && content(pages[k].nextLink) == Some(pages[k + 1])
    {
      assert pages[k + 1] == rest[k];
      if k > 0 {
        assert pages[k] == rest[k - 1];
      }
    }
    assert rest != [] ==> pages[|pages| - 1] == rest[|rest| - 1];
  }

  /** The rows gathered are those of these pages, page by page. */
  lemma {:induction false} PagesFollow<R>(content: string -> Option<Payload<R>>, url: string, n: nat) returns (pages: seq<Payload<R>>)
    ensures Follow(content, url, n, pages) && PagesOf(content, url, n) == RowsOf(pages)
    decreases n
  {
    if n == 0 || content(url).None? {
      pages := [];
    } else {
      var page := content(url).value;
      if page.nextLink == "" {
        pages := [page];
        assert pages[1..] == [];
      } else {
        var rest := PagesFollow(content, page.nextLink, n - 1);
        OnePageMore(content, url, n, page, rest);
        pages := [page] + rest;
        assert pages[1..] == rest;
      }
    }
  }

  /** The error that a failed fetch reports: that of one of its calls, up to 300 characters of it. */
  ghost predicate Reports<R>(s: Service<R>, outcome: Outcome<R>) {
    exists n: nat :: s.faults.at(n) != "" && outcome.error == (if |s.faults.at(n)| <= 300 then s.faults.at(n) else s.faults.at(n)[..300])
  }

  /** A fetch fails only with such an error, or because a page cannot be read; no rows are kept then. */
  lemma {:induction false} FailureIsReported<R>(s: Service<R>, f: Fetch<R>)
    requires Valid(f) && f.Fetching? && Complete(s, f).outcome.error != ""
    ensures Complete(s, f).outcome.rows == []
    ensures Reports(s, Complete(s, f).outcome)
            || Complete(s, f).outcome.error == "Azure Advisor returned an unreadable response."
    decreases Budget(f)
  {
    CallKeepsValid(s, f);
    var g := Call(s, f);
    if g.Fetching? {
      FailureIsReported(s, g);
    } else if s.faults.at(f.calls) != "" {
      assert Complete(s, f).outcome == Outcome([], Cut(s.faults.at(f.calls)));
    }
  }

  /** The limits of the fetch. */
  lemma Limits()
    ensures MAX_PAGES == 5 && MAX_ATTEMPTS == 4 && MAX_ROWS == 500 && CONCURRENCY == 4
  {
  }
}

/**
 * The background worker of the review collector. Phase one opens the first
 * review page in a tab, asks the page for its review and page counts and
 * builds one task per page; phase two visits the idle tasks one after another
 * and appends the reviews each page yields. Every page visit is tried up to
 * three times. The browser and the page are inputs: for each attempt the
 * model is told whether the tab was created (and with which id), whether a
 * reload worked, whether the load finished before the timeout and what the
 * content script replied.
 */
module ReviewCollectorBackground {
  import opened Wrappers
  import opened Strings
  import opened ReviewTypes
  import opened UrlBuilder
  import opened Browser

  // ---------------------------------------------------------------------------
  // Error messages and which of them are retried
  // ---------------------------------------------------------------------------

  /** The first attempt and two retries. */
  const MaxRetries: nat := 3

  const NoTabOnRetryMessage: string := "リトライ時にタブIDが存在しません"
  const PageInfoFailedMessage: string := "ページ情報の取得に失敗しました"
  const UrlErrorPrefix: string := "URL収集エラー: "

  /** The URL-collection phase retries errors whose text mentions a timeout, a missing tab id or missing page info. */
  predicate IsRetryableUrlError(text: string) {
    Contains(text, "timeout") || Contains(text, PageLoadTimeoutMessage)
    || Contains(text, NoTabIdMessage) || Contains(text, PageInfoFailedMessage)
  }

  /** A page task retries errors whose text mentions a timeout or a missing tab id. */
  predicate IsRetryablePageError(text: string) {
    Contains(text, "timeout") || Contains(text, PageLoadTimeoutMessage) || Contains(text, NoTabIdMessage)
  }

  /** Everything a page task retries, the URL-collection phase retries too. */
  lemma PageRetryImpliesUrlRetry(text: string)
    ensures IsRetryablePageError(text) ==> IsRetryableUrlError(text)
  {
  }

  /** The worker's own errors: a missing tab id and a load timeout are retried, a missing tab on retry is not. */
  lemma RetryableOwnErrors()
    ensures IsRetryableUrlError(ErrorText(NoTabIdMessage)) && IsRetryablePageError(ErrorText(NoTabIdMessage))
    ensures IsRetryableUrlError(ErrorText(PageLoadTimeoutMessage)) && IsRetryablePageError(ErrorText(PageLoadTimeoutMessage))
    ensures IsRetryableUrlError(ErrorText(PageInfoFailedMessage))
  {
    ContainsAppended("Error: ", NoTabIdMessage);
    ContainsAppended("Error: ", PageLoadTimeoutMessage);
    ContainsAppended("Error: ", PageInfoFailedMessage);
  }

  /** A missing tab on retry ends the retries in both phases. */
  lemma NoTabOnRetryIsFinal()
    ensures !IsRetryableUrlError(ErrorText(NoTabOnRetryMessage))
    ensures !IsRetryablePageError(ErrorText(NoTabOnRetryMessage))
  {
    var text := ErrorText(NoTabOnRetryMessage);
    NoTabOnRetryLacks();
    MissingCharNotContained(text, "timeout", 't');
    MissingCharNotContained(text, PageLoadTimeoutMessage, 't');
    MissingCharNotContained(text, NoTabIdMessage, '取');
    MissingCharNotContained(text, PageInfoFailedMessage, 'ペ');
  }

  /** The characters the retryable patterns need and the no-tab-on-retry error lacks. */
  lemma NoTabOnRetryLacks()
    ensures var text := ErrorText(NoTabOnRetryMessage);
      't' !in text && '取' !in text && 'ペ' !in text
  {
    assert ErrorText(NoTabOnRetryMessage) == "Error: " + NoTabOnRetryMessage;
    assert 't' !in "Error: " && '取' !in "Error: " && 'ペ' !in "Error: ";
  }

  /** Missing page info is retried while collecting URLs but would not be in a page task. */
  lemma PageInfoFailureOnlyRetriedForUrls()
    ensures !IsRetryablePageError(ErrorText(PageInfoFailedMessage))
  {
    var text := ErrorText(PageInfoFailedMessage);
    MissingCharNotContained(text, "timeout", 't');
    MissingCharNotContained(text, PageLoadTimeoutMessage, 't');
    MissingCharNotContained(text, NoTabIdMessage, 'タ');
  }

  // ---------------------------------------------------------------------------
  // One attempt, and the retry around it
  // ---------------------------------------------------------------------------

  /** What `chrome.tabs.reload` did. */
  datatype Reload = Reloaded | ReloadFailed(error: string)

  /**
   * What the browser and the page do during one attempt. The creation is used
   * by the first attempt only, the reload by the later ones.
   */
  datatype Attempt<R> = Attempt(creation: TabCreation, reload: Reload, load: Load, reply: R)

  /** The three attempts the retry can make. */
  datatype Attempts<R> = Attempts(first: Attempt<R>, second: Attempt<R>, third: Attempt<R>)

  function AttemptAt<R>(attempts: Attempts<R>, n: nat): Attempt<R>
    requires 1 <= n <= MaxRetries
  {
    if n == 1 then attempts.first else if n == 2 then attempts.second else attempts.third
  }

  /** The `tab` variable shared by the attempts: unset, or the tab object create returned. */
  datatype TabVar = NoTab | TabObject(id: Option<nat>)

  /** `tab?.id` when it is truthy (0 and a missing id are not). */
  function TabId(tab: TabVar): Option<nat> {
    if tab.TabObject? then TruthyId(tab.id) else None
  }

  /** The tab ids `tab` holds: its truthy id, if any. */
  function TabIds(tab: TabVar): set<nat> {
    if TabId(tab).Some? then {TabId(tab).value} else {}
  }

  /**
   * Attempt `n` gets a loaded tab: the first creates it, the later ones
   * reload the tab the first created. Returns the new `tab` and the tab id or
   * the message of the error thrown.
   */
  function OpenTab(n: nat, tab: TabVar, creation: TabCreation, reload: Reload): (r: (TabVar, Result<nat>))
    ensures n != 1 ==> r.0 == tab
    ensures r.1.Ok? ==> TabId(r.0) == Some(r.1.value)
    ensures n != 1 && TabId(tab).None? ==> r.1 == Err(NoTabOnRetryMessage)
    ensures n == 1 && creation.Created? && TabId(r.0).None? ==> r.1 == Err(NoTabIdMessage)
  {
    if n == 1 then
      match creation
      case Created(id) =>
        var t := TabObject(id);
        if TabId(t).Some? then (t, Ok(TabId(t).value)) else (t, Err(NoTabIdMessage))
      case CreateFailed(e) => (tab, Err(e))
    else
      match TabId(tab)
      case None => (tab, Err(NoTabOnRetryMessage))
      case Some(id) =>
        match reload
        case Reloaded => (tab, Ok(id))
        case ReloadFailed(e) => (tab, Err(e))
  }

  /** One attempt: open the tab, wait for the load, then turn the page's reply into a result. */
  function AttemptOnce<R, T(==)>(n: nat, tab: TabVar, a: Attempt<R>, reply: R -> Result<T>): (r: (TabVar, Result<T>))
    ensures n != 1 ==> r.0 == tab
  {
    var (t, got) := OpenTab(n, tab, a.creation, a.reload);
    if got.Err? then (t, Err(got.error))
    else if a.load.LoadTimedOut? then (t, Err(PageLoadTimeoutMessage))
    else (t, reply(a.reply))
  }

  /**
   * The `tab` after the retry, the result of each attempt made, and the
   * outcome: the last attempt's result for RetryFrom, what the promise
   * settles with for Retry.
   */
  datatype RetryResult<T> = RetryResult(tab: TabVar, trace: seq<Result<T>>, outcome: Result<T>)

  /**
   * async-retry from attempt `n`: an attempt that succeeds ends it, one whose
   * error text is not retryable bails out, and the third attempt is the last.
   */
  function RetryFrom<R, T(==)>(attempts: Attempts<R>, n: nat, tab: TabVar, reply: R -> Result<T>,
                           retryable: string -> bool): (r: RetryResult<T>)
    requires 1 <= n <= MaxRetries
    ensures 1 <= |r.trace| <= MaxRetries + 1 - n
    ensures r.outcome == r.trace[|r.trace| - 1]
    decreases MaxRetries - n
  {
    var (t, res) := AttemptOnce(n, tab, AttemptAt(attempts, n), reply);
    if res.Ok? || !retryable(ErrorText(res.error)) || n == MaxRetries then RetryResult(t, [res], res)
    else
      var rest := RetryFrom(attempts, n + 1, t, reply, retryable);
      RetryResult(rest.tab, [res] + rest.trace, rest.outcome)
  }

  /** The messages of the errors in a trace, in attempt order. */
  function Messages<T>(trace: seq<Result<T>>): (ms: seq<string>)
    ensures trace != [] && trace[|trace| - 1].Err? ==> ms != [] && ms[|ms| - 1] == trace[|trace| - 1].error
    decreases |trace|
  {
    if trace == [] then []
    else
      var last := trace[|trace| - 1];
      Messages(trace[..|trace| - 1]) + (if last.Err? then [last.error] else [])
  }

  /** How often `m` occurs in `ms`. */
  function Occurrences(ms: seq<string>, m: string): nat {
    multiset(ms)[m]
  }

  /**
   * `mainError` of the retry operation behind async-retry: scanning the
   * errors in order, an error becomes the main one when its message has
   * occurred at least as often so far as the current main one's.
   */
  function MainError(ms: seq<string>): string
    requires ms != []
    decreases |ms|
  {
    if |ms| == 1 then ms[0]
    else
      var init := ms[..|ms| - 1];
      var prev := MainError(init);
      if Occurrences(ms, ms[|ms| - 1]) >= Occurrences(init, prev) then ms[|ms| - 1] else prev
  }

  /**
   * The main error is one of the messages, none occurs more often, and the
   * last message wins when it occurs as often as any.
   */
  lemma {:induction false} MainErrorSpec(ms: seq<string>)
    requires ms != []
    ensures MainError(ms) in ms
    ensures forall m :: Occurrences(ms, m) <= Occurrences(ms, MainError(ms))
    ensures (forall m :: Occurrences(ms, m) <= Occurrences(ms, ms[|ms| - 1])) ==> MainError(ms) == ms[|ms| - 1]
    decreases |ms|
  {
    if |ms| > 1 {
      var init := ms[..|ms| - 1];
      var last := ms[|ms| - 1];
      assert ms == init + [last];
      assert multiset(ms) == multiset(init) + multiset{last};
      MainErrorSpec(init);
      var prev := MainError(init);
      assert Occurrences(ms, last) == Occurrences(init, last) + 1;
      if Occurrences(ms, last) >= Occurrences(init, prev) {
        forall m ensures Occurrences(ms, m) <= Occurrences(ms, last) {
          if m != last {
            assert Occurrences(ms, m) == Occurrences(init, m);
          }
        }
      } else {
        forall m ensures Occurrences(ms, m) <= Occurrences(ms, prev) {
          if m != last {
            assert Occurrences(ms, m) == Occurrences(init, m);
          }
        }
      }
    }
  }

  /**
   * What the retry settles with: the last attempt's result, except that when
   * the third attempt fails with an error that is retried, async-retry
   * rejects with the main error of all three.
   */
  function Settled<T>(trace: seq<Result<T>>, retryable: string -> bool): Result<T>
    requires trace != []
  {
    var last := trace[|trace| - 1];
    if |trace| == MaxRetries && last.Err? && retryable(ErrorText(last.error)) then Err(MainError(Messages(trace)))
    else last
  }

  /** The settled outcome succeeds exactly when the last attempt did, and an error it reports is one some attempt failed with. */
  lemma SettledSpec<T>(trace: seq<Result<T>>, retryable: string -> bool)
    requires trace != []
    ensures var s := Settled(trace, retryable);
      (s.Ok? <==> trace[|trace| - 1].Ok?)
      && (s.Ok? ==> s == trace[|trace| - 1])
      && (s.Err? ==> s.error in Messages(trace))
  {
    var last := trace[|trace| - 1];
    if last.Err? {
      MainErrorSpec(Messages(trace));
    }
  }

  /** async-retry: up to three attempts from a fresh `tab`, settled as the library does. */
  function Retry<R, T(==)>(attempts: Attempts<R>, reply: R -> Result<T>, retryable: string -> bool): RetryResult<T> {
    var r := RetryFrom(attempts, 1, NoTab, reply, retryable);
    RetryResult(r.tab, r.trace, Settled(r.trace, retryable))
  }

  /** Every attempt but the last failed with a retryable error, and the last is why the retry stopped. */
  predicate StopsProperly<T(==)>(trace: seq<Result<T>>, outcome: Result<T>, retryable: string -> bool, budget: nat) {
    trace != []
    && (forall i :: 0 <= i < |trace| - 1 ==> trace[i].Err? && retryable(ErrorText(trace[i].error)))
    && outcome == trace[|trace| - 1]
    && (outcome.Ok? || !retryable(ErrorText(outcome.error)) || |trace| == budget)
  }

  /** From a later attempt on, the tab stays the one given and attempt `n + i` is the `i`-th entry of the trace. */
  lemma {:induction false} RetryFromSpec<R, T>(attempts: Attempts<R>, n: nat, tab: TabVar,
                                               reply: R -> Result<T>, retryable: string -> bool)
    requires 1 <= n <= MaxRetries
    ensures var r := RetryFrom(attempts, n, tab, reply, retryable);
      StopsProperly(r.trace, r.outcome, retryable, MaxRetries + 1 - n)
      && r.trace[0] == AttemptOnce(n, tab, AttemptAt(attempts, n), reply).1
      && (n != 1 ==> r.tab == tab)
      && (n != 1 ==> forall i :: 0 <= i < |r.trace| ==>
            (n + i <= MaxRetries && r.trace[i] == AttemptOnce(n + i, tab, AttemptAt(attempts, n + i), reply).1))
    decreases MaxRetries - n
  {
    var (t, res) := AttemptOnce(n, tab, AttemptAt(attempts, n), reply);
    if !(res.Ok? || !retryable(ErrorText(res.error)) || n == MaxRetries) {
      RetryFromSpec(attempts, n + 1, t, reply, retryable);
      var rest := RetryFrom(attempts, n + 1, t, reply, retryable);
      var r := RetryFrom(attempts, n, tab, reply, retryable);
      assert r.trace == [res] + rest.trace;
      forall i | 0 <= i < |r.trace| - 1
        ensures r.trace[i].Err? && retryable(ErrorText(r.trace[i].error))
      {
        if i > 0 {
          assert r.trace[i] == rest.trace[i - 1];
        }
      }
      if n != 1 {
        forall i | 0 <= i < |r.trace|
          ensures n + i <= MaxRetries && r.trace[i] == AttemptOnce(n + i, tab, AttemptAt(attempts, n + i), reply).1
        {
          if i > 0 {
            assert r.trace[i] == rest.trace[i - 1];
          }
        }
      }
    }
  }

  /**
   * The retry makes one to three attempts; each but the last failed with a
   * retryable error; it stopped on success, on an error it does not retry or
   * after the third attempt; the first attempt creates the tab and every later
   * one reuses that tab; and it settles as `Settled` says.
   */
  lemma RetrySpec<R, T>(attempts: Attempts<R>, reply: R -> Result<T>, retryable: string -> bool)
    ensures var r := Retry(attempts, reply, retryable);
      var first := AttemptOnce(1, NoTab, attempts.first, reply);
      StopsProperly(r.trace, r.trace[|r.trace| - 1], retryable, MaxRetries)
      && r.outcome == Settled(r.trace, retryable)
      && r.trace[0] == first.1
      && r.tab == first.0
      && forall i :: 1 <= i < |r.trace| ==> r.trace[i] == AttemptOnce(i + 1, first.0, AttemptAt(attempts, i + 1), reply).1
  {
    var r := Retry(attempts, reply, retryable);
    var first := AttemptOnce(1, NoTab, attempts.first, reply);
    RetryFromSpec(attempts, 1, NoTab, reply, retryable);
    if |r.trace| > 1 {
      RetryFromSpec(attempts, 2, first.0, reply, retryable);
      var rest := RetryFrom(attempts, 2, first.0, reply, retryable);
      assert r.trace == [first.1] + rest.trace;
      forall i | 1 <= i < |r.trace|
        ensures r.trace[i] == AttemptOnce(i + 1, first.0, AttemptAt(attempts, i + 1), reply).1
      {
        assert r.trace[i] == rest.trace[i - 1];
      }
    }
  }

  /**
   * When the first attempt leaves no tab id and its error is retried, the
   * second attempt cannot reload anything and fails for good: exactly two
   * attempts, ending in "no tab id on retry".
   */
  lemma LostTabEndsRetry<R, T>(attempts: Attempts<R>, reply: R -> Result<T>, retryable: string -> bool)
    requires TabId(AttemptOnce(1, NoTab, attempts.first, reply).0).None?
    requires AttemptOnce(1, NoTab, attempts.first, reply).1.Err?
    requires retryable(ErrorText(AttemptOnce(1, NoTab, attempts.first, reply).1.error))
    requires !retryable(ErrorText(NoTabOnRetryMessage))
    ensures |Retry(attempts, reply, retryable).trace| == 2
    ensures Retry(attempts, reply, retryable).outcome == Err(NoTabOnRetryMessage)
  {
    var first := AttemptOnce(1, NoTab, attempts.first, reply);
    var second := AttemptOnce(2, first.0, attempts.second, reply);
    assert second.1 == Err(NoTabOnRetryMessage);
  }

  // ---------------------------------------------------------------------------
  // The content script's replies
  // ---------------------------------------------------------------------------

  /** The reply to GET_PAGE_INFO, or the rejection of the message itself. */
  datatype PageInfoReply =
    | PageInfoResponse(totalReviews: int, reviewsPerPage: int, totalPages: int)
    | ErrorResponse(error: string)
    | OtherResponse
    | NoResponse(error: string)

  datatype PageInfo = PageInfo(totalReviews: int, totalPages: int)

  /** getPageInfoFromTab: the counts, or the message of the error it throws. */
  function PageInfoOf(reply: PageInfoReply): (r: Result<PageInfo>)
    ensures r.Ok? <==> reply.PageInfoResponse?
    ensures r.Ok? ==> r.value == PageInfo(reply.totalReviews, reply.totalPages)
    ensures reply.OtherResponse? ==> r == Err(PageInfoFailedMessage)
    ensures reply.ErrorResponse? || reply.NoResponse? ==> r == Err(reply.error)
  {
    match reply
    case PageInfoResponse(total, _, pages) => Ok(PageInfo(total, pages))
    case ErrorResponse(e) => Err(e)
    case OtherResponse => Err(PageInfoFailedMessage)
    case NoResponse(e) => Err(e)
  }

  /** The reply to EXTRACT_REVIEWS, or the rejection of the message itself. */
  datatype ExtractReply =
    | ReviewsExtracted(reviews: seq<ReviewData>)
    | ExtractErrorResponse(error: string)
    | ExtractOtherResponse
    | ExtractNoResponse(error: string)

  /** extractReviewsFromTab: never throws; anything but extracted reviews counts as none. */
  function ReviewsOf(reply: ExtractReply): (r: Result<seq<ReviewData>>)
    ensures r.Ok?
    ensures !reply.ReviewsExtracted? ==> r.value == []
  {
    match reply
    case ReviewsExtracted(reviews) => Ok(reviews)
    case _ => Ok([])
  }

  /** A page attempt fails only when its tab could not be had or the page did not load. */
  lemma PageAttemptFailure(n: nat, tab: TabVar, a: Attempt<ExtractReply>)
    ensures AttemptOnce(n, tab, a, ReviewsOf).1.Err? <==>
      OpenTab(n, tab, a.creation, a.reload).1.Err? || a.load.LoadTimedOut?
  {
  }

  /** The retry of the URL-collection phase. */
  function UrlRun(attempts: Attempts<PageInfoReply>): RetryResult<PageInfo> {
    Retry(attempts, PageInfoOf, IsRetryableUrlError)
  }

  /** The retry of one page task. */
  function TaskRun(attempts: Attempts<ExtractReply>): RetryResult<seq<ReviewData>> {
    Retry(attempts, ReviewsOf, IsRetryablePageError)
  }

  /**
   * A page task whose tab comes back without an id is tried exactly twice
   * and fails with "no tab id on retry": the retry meant for a missing id
   * can never succeed. The same holds in the URL-collection phase.
   */
  lemma TabWithoutIdFailsTwice(pageAttempts: Attempts<ExtractReply>, urlAttempts: Attempts<PageInfoReply>)
    requires pageAttempts.first.creation == Created(None)
    requires urlAttempts.first.creation == Created(None)
    ensures |TaskRun(pageAttempts).trace| == 2 && TaskRun(pageAttempts).outcome == Err(NoTabOnRetryMessage)
    ensures |UrlRun(urlAttempts).trace| == 2 && UrlRun(urlAttempts).outcome == Err(NoTabOnRetryMessage)
  {
    RetryableOwnErrors();
    NoTabOnRetryIsFinal();
    LostTabEndsRetry(pageAttempts, ReviewsOf, IsRetryablePageError);
    LostTabEndsRetry(urlAttempts, PageInfoOf, IsRetryableUrlError);
  }

  /** The attempts of a page that times out twice and then loads without page info. */
  predicate TimesOutTwiceThenNoInfo(attempts: Attempts<PageInfoReply>, id: nat) {
    id != 0
    && attempts.first.creation == Created(Some(id)) && attempts.first.load == LoadTimedOut
    && attempts.second.reload == Reloaded && attempts.second.load == LoadTimedOut
    && attempts.third.reload == Reloaded && attempts.third.load == Loaded && attempts.third.reply == OtherResponse
  }

  /** Such a page is tried three times: two timeouts, then the page-info error. */
  lemma TimesOutTwiceThenNoInfoTrace(attempts: Attempts<PageInfoReply>, id: nat)
    requires TimesOutTwiceThenNoInfo(attempts, id)
    ensures RetryFrom(attempts, 1, NoTab, PageInfoOf, IsRetryableUrlError).trace
         == [Err(PageLoadTimeoutMessage), Err(PageLoadTimeoutMessage), Err(PageInfoFailedMessage)]
  {
    RetryableOwnErrors();
    var tab := TabObject(Some(id));
    assert AttemptOnce(3, tab, attempts.third, PageInfoOf) == (tab, Err(PageInfoFailedMessage));
    assert RetryFrom(attempts, 3, tab, PageInfoOf, IsRetryableUrlError).trace == [Err(PageInfoFailedMessage)];
    assert AttemptOnce(2, tab, attempts.second, PageInfoOf) == (tab, Err(PageLoadTimeoutMessage));
    assert RetryFrom(attempts, 2, tab, PageInfoOf, IsRetryableUrlError).trace
        == [Err(PageLoadTimeoutMessage), Err(PageInfoFailedMessage)];
    assert AttemptOnce(1, NoTab, attempts.first, PageInfoOf) == (tab, Err(PageLoadTimeoutMessage));
  }

  /** Of two timeouts and one page-info error, the timeout is the main error. */
  lemma TimeoutIsMainError(trace: seq<Result<PageInfo>>)
    requires trace == [Err(PageLoadTimeoutMessage), Err(PageLoadTimeoutMessage), Err(PageInfoFailedMessage)]
    ensures MainError(Messages(trace)) == PageLoadTimeoutMessage
  {
    var ms := [PageLoadTimeoutMessage, PageLoadTimeoutMessage, PageInfoFailedMessage];
    var one, two := trace[..1], trace[..2];
    assert two[..1] == one && one[..0] == [];
    assert Messages(one) == [PageLoadTimeoutMessage];
    assert Messages(two) == [PageLoadTimeoutMessage, PageLoadTimeoutMessage];
    assert Messages(trace) == ms;
    assert ms[..2][..1] == [PageLoadTimeoutMessage];
    assert ms[..2] == [PageLoadTimeoutMessage, PageLoadTimeoutMessage];
    assert PageInfoFailedMessage != PageLoadTimeoutMessage;
    assert multiset(ms)[PageInfoFailedMessage] == 1;
    assert multiset(ms[..2])[PageLoadTimeoutMessage] == 2;
  }

  /**
   * A URL phase whose page times out twice and then loads without page info
   * fails with the timeout, the error seen most often, not with the last one.
   */
  lemma UrlPhaseReportsMostFrequentError(attempts: Attempts<PageInfoReply>, id: nat)
    requires TimesOutTwiceThenNoInfo(attempts, id)
    ensures UrlRun(attempts).trace == [Err(PageLoadTimeoutMessage), Err(PageLoadTimeoutMessage), Err(PageInfoFailedMessage)]
    ensures UrlRun(attempts).outcome == Err(PageLoadTimeoutMessage)
  {
    TimesOutTwiceThenNoInfoTrace(attempts, id);
    TimeoutIsMainError(UrlRun(attempts).trace);
    RetryableOwnErrors();
  }

  // ---------------------------------------------------------------------------
  // The collection state
  // ---------------------------------------------------------------------------

  datatype Status = Idle | UrlCollecting | ReviewCollecting | Completed | Failed
  datatype TaskStatus = TaskIdle | Processing | TaskCompleted | TaskFailed
  datatype PageTask = PageTask(url: string, pageNumber: int, status: TaskStatus, errorMessage: Option<string>)

  datatype CollectionState = CollectionState(
    status: Status,
    currentPage: int,
    expectedTotalReviews: int,
    collectedReviewsCount: int,
    reviews: seq<ReviewData>,
    pageTasks: seq<PageTask>,
    totalPageCount: Option<int>,
    error: Option<string>
  )

  const InitialState: CollectionState := CollectionState(Idle, 0, 0, 0, [], [], None, None)

  /** `urls.map((url, index) => ...)`: one idle task per URL, numbered from 1. */
  function TasksFor(urls: seq<string>): seq<PageTask> {
    seq(|urls|, i requires 0 <= i < |urls| => PageTask(urls[i], i + 1, TaskIdle, None))
  }

  /** The state once the URL-collection retry has ended with `outcome`. */
  function UrlPhaseResult(s: CollectionState, startUrl: string, parsed: Url, outcome: Result<PageInfo>): CollectionState {
    match outcome
    case Ok(info) =>
      s.(pageTasks := TasksFor(PageUrls(startUrl, parsed, info.totalPages)),
         expectedTotalReviews := info.totalReviews,
         totalPageCount := Some(info.totalPages),
         status := ReviewCollecting)
    case Err(e) => s.(status := Failed, error := Some(UrlErrorPrefix + ErrorText(e)))
  }

  /**
   * After a successful URL phase there is one idle task per page, numbered
   * 1..n, the first for the start URL itself; after a failure the tasks are
   * untouched and the error text names the URL phase.
   */
  lemma UrlPhaseResultSpec(s: CollectionState, startUrl: string, parsed: Url, outcome: Result<PageInfo>)
    ensures var t := UrlPhaseResult(s, startUrl, parsed, outcome);
      outcome.Ok? ==>
        t.status == ReviewCollecting
        && |t.pageTasks| == (if outcome.value.totalPages >= 1 then outcome.value.totalPages else 1)
        && t.pageTasks[0].url == startUrl
        && (forall i :: 0 <= i < |t.pageTasks| ==>
              t.pageTasks[i].pageNumber == i + 1 && t.pageTasks[i].status == TaskIdle)
        && t.reviews == s.reviews
    ensures var t := UrlPhaseResult(s, startUrl, parsed, outcome);
      outcome.Err? ==>
        t.status == Failed && t.pageTasks == s.pageTasks && t.reviews == s.reviews
        && t.error.Some? && StartsWith(t.error.value, UrlErrorPrefix)
  {
    PageUrlsShape(startUrl, parsed, if outcome.Ok? then outcome.value.totalPages else 0);
    if outcome.Err? {
      var text := UrlErrorPrefix + ErrorText(outcome.error);
      assert text[..|UrlErrorPrefix|] == UrlErrorPrefix;
    }
  }

  /** The positions of the idle tasks, in order: `pageTasks.filter(t => t.status === 'idle')`. */
  function IdleIndices(tasks: seq<PageTask>): seq<nat>
    decreases |tasks|
  {
    if tasks == [] then []
    else
      var init := IdleIndices(tasks[..|tasks| - 1]);
      if tasks[|tasks| - 1].status == TaskIdle then init + [|tasks| - 1] else init
  }

  /** The filter keeps exactly the idle positions, each once, in ascending order. */
  lemma {:induction false} IdleIndicesSpec(tasks: seq<PageTask>)
    ensures forall p :: 0 <= p < |IdleIndices(tasks)| ==>
      IdleIndices(tasks)[p] < |tasks| && tasks[IdleIndices(tasks)[p]].status == TaskIdle
    ensures forall p, q :: 0 <= p < q < |IdleIndices(tasks)| ==> IdleIndices(tasks)[p] < IdleIndices(tasks)[q]
    ensures forall i :: 0 <= i < |tasks| && tasks[i].status == TaskIdle ==> i in IdleIndices(tasks)
    decreases |tasks|
  {
    if tasks != [] {
      var init := tasks[..|tasks| - 1];
      IdleIndicesSpec(init);
      assert forall i :: 0 <= i < |init| ==> init[i] == tasks[i];
    }
  }

  /** When every task is idle, the idle positions are all positions. */
  lemma {:induction false} AllIdle(tasks: seq<PageTask>)
    requires forall i :: 0 <= i < |tasks| ==> tasks[i].status == TaskIdle
    ensures |IdleIndices(tasks)| == |tasks|
    ensures forall p :: 0 <= p < |tasks| ==> IdleIndices(tasks)[p] == p
    decreases |tasks|
  {
    if tasks != [] {
      AllIdle(tasks[..|tasks| - 1]);
    }
  }

  /** The task once its retry has ended with `r`. */
  function Finished(task: PageTask, r: RetryResult<seq<ReviewData>>): PageTask {
    match r.outcome
    case Ok(_) => task.(status := TaskCompleted)
    case Err(e) => task.(status := TaskFailed, errorMessage := Some(ErrorText(e)))
  }

  /** The reviews a task adds: those of its successful attempt, none when it failed. */
  function Gained(r: RetryResult<seq<ReviewData>>): seq<ReviewData> {
    if r.outcome.Ok? then r.outcome.value else []
  }

  /** The reviews the first `j` idle tasks add, in task order. */
  function GainedBefore(taskAttempts: nat -> Attempts<ExtractReply>, j: nat): seq<ReviewData>
    decreases j
  {
    if j == 0 then [] else GainedBefore(taskAttempts, j - 1) + Gained(TaskRun(taskAttempts(j - 1)))
  }

  /** A task that was run is completed or failed, never left idle or processing; a failure keeps its error text. */
  lemma FinishedSpec(task: PageTask, r: RetryResult<seq<ReviewData>>)
    ensures Finished(task, r).status == TaskCompleted <==> r.outcome.Ok?
    ensures Finished(task, r).status == TaskFailed <==> r.outcome.Err?
    ensures r.outcome.Err? ==> Finished(task, r).errorMessage == Some(ErrorText(r.outcome.error))
    ensures Finished(task, r).url == task.url && Finished(task, r).pageNumber == task.pageNumber
  {
  }

  /** How many idle tasks the review phase runs: all of them, or those before the stop request. */
  function Visited(stoppedBefore: bool, stopBefore: Option<nat>, idleCount: nat): (v: nat)
    ensures v <= idleCount
  {
    if stoppedBefore then 0
    else match stopBefore
      case Some(s) => if s < idleCount then s else idleCount
      case None => idleCount
  }

  /**
   * After the first `j` idle tasks of `s0` have run: each of them is
   * finished, every other task is as it was, their reviews were appended in
   * order, the current page is the last one visited, the count still agrees
   * with the reviews when it agreed before, and the phase-one fields are kept.
   */
  ghost predicate RunSoFar(s0: CollectionState, s: CollectionState, taskAttempts: nat -> Attempts<ExtractReply>, j: nat) {
    var idle := IdleIndices(s0.pageTasks);
    j <= |idle|
    && TasksSoFar(s0.pageTasks, s.pageTasks, idle, taskAttempts, j)
    && s.reviews == s0.reviews + GainedBefore(taskAttempts, j)
    && s.currentPage == (if j > 0 then s0.pageTasks[idle[j - 1]].pageNumber else s0.currentPage)
    && (s0.collectedReviewsCount == |s0.reviews| ==> s.collectedReviewsCount == |s.reviews|)
    && s.expectedTotalReviews == s0.expectedTotalReviews
    && s.totalPageCount == s0.totalPageCount
    && s.error == s0.error
  }

  /** The tasks at the first `j` idle positions are finished and all others are as they were. */
  ghost predicate TasksSoFar(tasks0: seq<PageTask>, tasks: seq<PageTask>, idle: seq<nat>,
                             taskAttempts: nat -> Attempts<ExtractReply>, j: nat)
    requires j <= |idle|
  {
    |tasks| == |tasks0|
    && (forall p :: 0 <= p < j ==> idle[p] < |tasks| && tasks[idle[p]] == Finished(tasks0[idle[p]], TaskRun(taskAttempts(p))))
    && (forall i :: 0 <= i < |tasks| && i !in idle[..j] ==> tasks[i] == tasks0[i])
  }

  /** Finishing the task at the next idle position extends the finished prefix by one. */
  lemma TasksSoFarStep(tasks0: seq<PageTask>, tasks: seq<PageTask>, taskAttempts: nat -> Attempts<ExtractReply>, j: nat)
    requires j < |IdleIndices(tasks0)|
    requires TasksSoFar(tasks0, tasks, IdleIndices(tasks0), taskAttempts, j)
    ensures IdleIndices(tasks0)[j] < |tasks|
    ensures tasks[IdleIndices(tasks0)[j]] == tasks0[IdleIndices(tasks0)[j]]
    ensures TasksSoFar(tasks0, tasks[IdleIndices(tasks0)[j] := Finished(tasks[IdleIndices(tasks0)[j]], TaskRun(taskAttempts(j)))],
                       IdleIndices(tasks0), taskAttempts, j + 1)
  {
    IdleIndicesSpec(tasks0);
    var idle := IdleIndices(tasks0);
    var k := idle[j];
    assert k !in idle[..j] by {
      forall p | 0 <= p < j ensures idle[..j][p] != k {
        assert idle[p] < idle[j];
      }
    }
    var t := tasks[k := Finished(tasks[k], TaskRun(taskAttempts(j)))];
    assert idle[..j + 1] == idle[..j] + [k];
    forall p | 0 <= p < j + 1
      ensures idle[p] < |t| && t[idle[p]] == Finished(tasks0[idle[p]], TaskRun(taskAttempts(p)))
    {
      if p < j {
        assert idle[p] < idle[j];
      }
    }
  }

  /** The state saved when page task `k` starts: the task is processing and its page is the current one. */
  function TaskStarted(s: CollectionState, k: nat): CollectionState
    requires k < |s.pageTasks|
  {
    s.(pageTasks := s.pageTasks[k := s.pageTasks[k].(status := Processing)], currentPage := s.pageTasks[k].pageNumber)
  }

  /** A second update at the same index overrides the first. */
  lemma UpdateTwice(xs: seq<PageTask>, k: nat, a: PageTask, b: PageTask)
    requires k < |xs|
    ensures xs[k := a][k := b] == xs[k := b]
  {
  }

  /** The state after running one more page task, from `s`. */
  function AfterTask(s: CollectionState, k: nat, r: RetryResult<seq<ReviewData>>): CollectionState
    requires k < |s.pageTasks|
  {
    s.(currentPage := s.pageTasks[k].pageNumber,
       pageTasks := s.pageTasks[k := Finished(s.pageTasks[k], r)],
       reviews := s.reviews + Gained(r),
       collectedReviewsCount := if r.outcome.Ok? then |s.reviews| + |Gained(r)| else s.collectedReviewsCount)
  }

  /** The state after the first `j` idle tasks of `s0` have run, one after another. */
  function RunState(s0: CollectionState, taskAttempts: nat -> Attempts<ExtractReply>, j: nat): (s: CollectionState)
    requires j <= |IdleIndices(s0.pageTasks)|
    ensures |s.pageTasks| == |s0.pageTasks| && s.status == s0.status
    decreases j
  {
    if j == 0 then s0
    else
      IdleIndicesSpec(s0.pageTasks);
      AfterTask(RunState(s0, taskAttempts, j - 1), IdleIndices(s0.pageTasks)[j - 1], TaskRun(taskAttempts(j - 1)))
  }

  /** Running the next idle task from a state that differs from the run only in its status. */
  lemma RunStateStep(s0: CollectionState, taskAttempts: nat -> Attempts<ExtractReply>, j: nat, s: CollectionState)
    requires j < |IdleIndices(s0.pageTasks)|
    requires s.(status := s0.status) == RunState(s0, taskAttempts, j)
    ensures IdleIndices(s0.pageTasks)[j] < |s.pageTasks|
    ensures AfterTask(s, IdleIndices(s0.pageTasks)[j], TaskRun(taskAttempts(j))).(status := s0.status)
            == RunState(s0, taskAttempts, j + 1)
  {
    IdleIndicesSpec(s0.pageTasks);
  }

  /** `after` extends the saved states `before` with at least one save, the last of `s`. */
  ghost predicate SavedSince(before: seq<CollectionState>, after: seq<CollectionState>, s: CollectionState) {
    before < after && after[|after| - 1] == s
  }

  /** What was saved before a save is still there after it. */
  lemma SavedAfter(a: seq<CollectionState>, b: seq<CollectionState>, c: seq<CollectionState>, s1: CollectionState, s2: CollectionState)
    requires SavedSince(a, b, s1) && SavedSince(b, c, s2)
    ensures SavedSince(a, c, s2)
  {
    assert c[..|b|][..|a|] == c[..|a|];
  }

  /** Two states that differ only in their status become equal once given the same status. */
  lemma StatusOnly(s: CollectionState, t: CollectionState, st0: Status, st: Status)
    requires s.(status := st0) == t
    ensures s.(status := st) == t.(status := st)
  {
  }

  /** Running the first `j` idle tasks finishes exactly those, appends their reviews in order and keeps the rest. */
  lemma {:induction false} RunStateSpec(s0: CollectionState, taskAttempts: nat -> Attempts<ExtractReply>, j: nat)
    requires j <= |IdleIndices(s0.pageTasks)|
    ensures RunSoFar(s0, RunState(s0, taskAttempts, j), taskAttempts, j)
    decreases j
  {
    if j == 0 {
      RunSoFarStart(s0, taskAttempts);
    } else {
      RunStateSpec(s0, taskAttempts, j - 1);
      RunSoFarStep(s0, RunState(s0, taskAttempts, j - 1), taskAttempts, j - 1);
    }
  }

  lemma RunSoFarStart(s0: CollectionState, taskAttempts: nat -> Attempts<ExtractReply>)
    ensures RunSoFar(s0, s0, taskAttempts, 0)
  {
  }

  lemma AppendAssoc(a: seq<ReviewData>, b: seq<ReviewData>, c: seq<ReviewData>)
    ensures (a + b) + c == a + (b + c)
  {
  }

  /** Running the next idle task extends the run by one. */
  lemma RunSoFarStep(s0: CollectionState, s: CollectionState, taskAttempts: nat -> Attempts<ExtractReply>, j: nat)
    requires RunSoFar(s0, s, taskAttempts, j)
    requires j < |IdleIndices(s0.pageTasks)|
    ensures IdleIndices(s0.pageTasks)[j] < |s.pageTasks|
    ensures RunSoFar(s0, AfterTask(s, IdleIndices(s0.pageTasks)[j], TaskRun(taskAttempts(j))), taskAttempts, j + 1)
  {
    var idle := IdleIndices(s0.pageTasks);
    var k := idle[j];
    var r := TaskRun(taskAttempts(j));
    TasksSoFarStep(s0.pageTasks, s.pageTasks, taskAttempts, j);
    var t := AfterTask(s, k, r);
    assert t.pageTasks == s.pageTasks[k := Finished(s.pageTasks[k], r)];
    assert GainedBefore(taskAttempts, j + 1) == GainedBefore(taskAttempts, j) + Gained(r);
    AppendAssoc(s0.reviews, GainedBefore(taskAttempts, j), Gained(r));
    assert t.currentPage == s0.pageTasks[idle[j]].pageNumber;
  }

  /** A status change alone keeps the run as it is. */
  lemma RunSoFarStatus(s0: CollectionState, s: CollectionState, taskAttempts: nat -> Attempts<ExtractReply>, j: nat, st: Status)
    requires RunSoFar(s0, s, taskAttempts, j)
    ensures RunSoFar(s0, s.(status := st), taskAttempts, j)
  {
  }

  /** Whether the review phase sees a stop: one before it began, or one arriving before some idle task or after the last. */
  predicate StopSeen(stoppedBefore: bool, stopBefore: Option<nat>, idleCount: nat) {
    stoppedBefore || (stopBefore.Some? && stopBefore.value <= idleCount)
  }

  /**
   * The stop bookkeeping of the review loop after `j` tasks: `flag` is the
   * stop flag and `stopped` whether the loop has seen it.
   */
  predicate StopProgress(stop0: bool, stopBefore: Option<nat>, m: nat, j: nat, stopped: bool, flag: bool) {
    j <= m
    && (stop0 ==> j == 0)
    && (!stopped ==> flag == stop0 && (stopBefore.Some? ==> stopBefore.value >= j))
    && (stopped ==> flag && j == Visited(stop0, stopBefore, m) && StopSeen(stop0, stopBefore, m))
  }

  /** The loop sees the flag, raised before it began or by a request arriving now. */
  lemma StopProgressHalt(stop0: bool, stopBefore: Option<nat>, m: nat, j: nat, flagBefore: bool)
    requires StopProgress(stop0, stopBefore, m, j, false, flagBefore) && j < m
    requires flagBefore || stopBefore == Some(j)
    ensures StopProgress(stop0, stopBefore, m, j, true, true)
  {
  }

  /** No stop before task `j`: the loop runs it and moves on. */
  lemma StopProgressNext(stop0: bool, stopBefore: Option<nat>, m: nat, j: nat)
    requires StopProgress(stop0, stopBefore, m, j, false, false) && j < m
    requires stopBefore != Some(j)
    ensures StopProgress(stop0, stopBefore, m, j + 1, false, false)
  {
  }

  /** When the loop ends, the tasks run and the final flag are as Visited and StopSeen say. */
  lemma StopProgressEnd(stop0: bool, stopBefore: Option<nat>, m: nat, j: nat, stopped: bool, flag: bool)
    requires StopProgress(stop0, stopBefore, m, j, stopped, flag) && (stopped || j == m)
    ensures j == Visited(stop0, stopBefore, m)
    ensures (flag || (!stopped && stopBefore == Some(m))) == StopSeen(stop0, stopBefore, m)
  {
  }

  /** When every task was idle, the first `v` tasks are finished and the rest are as they were. */
  lemma RunSoFarAllIdle(s0: CollectionState, s: CollectionState, taskAttempts: nat -> Attempts<ExtractReply>, v: nat)
    requires forall i :: 0 <= i < |s0.pageTasks| ==> s0.pageTasks[i].status == TaskIdle
    requires RunSoFar(s0, s, taskAttempts, v)
    ensures |s.pageTasks| == |s0.pageTasks|
    ensures forall p :: 0 <= p < |s0.pageTasks| ==>
      s.pageTasks[p] == if p < v then Finished(s0.pageTasks[p], TaskRun(taskAttempts(p))) else s0.pageTasks[p]
  {
    var idle := IdleIndices(s0.pageTasks);
    AllIdle(s0.pageTasks);
    forall p | v <= p < |s0.pageTasks| ensures s.pageTasks[p] == s0.pageTasks[p] {
      assert p !in idle[..v] by {
        forall q | 0 <= q < v ensures idle[..v][q] != p {
          assert idle[q] == q;
        }
      }
    }
    forall p | 0 <= p < v ensures s.pageTasks[p] == Finished(s0.pageTasks[p], TaskRun(taskAttempts(p))) {
      assert idle[p] == p;
    }
  }
  /**
   * The review phase over freshly built tasks, all idle, visits a prefix of
   * them: those are finished in page order with their reviews appended in
   * the same order, the rest stay idle, and the page-count fields are kept.
   */
  lemma FreshTasksRun(s0: CollectionState, taskAttempts: nat -> Attempts<ExtractReply>, stopBefore: Option<nat>, st: Status)
    requires forall i :: 0 <= i < |s0.pageTasks| ==> s0.pageTasks[i].status == TaskIdle
    ensures |IdleIndices(s0.pageTasks)| == |s0.pageTasks|
    ensures var v := Visited(false, stopBefore, |s0.pageTasks|);
      var s := RunState(s0, taskAttempts, v).(status := st);
      |s.pageTasks| == |s0.pageTasks|
      && (forall p :: 0 <= p < |s0.pageTasks| ==>
            s.pageTasks[p] == if p < v then Finished(s0.pageTasks[p], TaskRun(taskAttempts(p))) else s0.pageTasks[p])
      && s.reviews == s0.reviews + GainedBefore(taskAttempts, v)
      && s.expectedTotalReviews == s0.expectedTotalReviews
      && s.totalPageCount == s0.totalPageCount
  {
    AllIdle(s0.pageTasks);
    var v := Visited(false, stopBefore, |s0.pageTasks|);
    RunStateSpec(s0, taskAttempts, v);
    RunSoFarStatus(s0, RunState(s0, taskAttempts, v), taskAttempts, v, st);
    RunSoFarAllIdle(s0, RunState(s0, taskAttempts, v).(status := st), taskAttempts, v);
  }


  /**
   * A run whose URL phase succeeds reviews the new pages in page order: the
   * review phase sees one idle task per page, and the first `v` pages (all of
   * them unless a stop arrives) are finished with their reviews appended after
   * the reviews already held, the rest stay idle.
   */
  lemma WorkflowReviewPhase(s: CollectionState, startUrl: string, parsed: Url, info: PageInfo,
                            taskAttempts: nat -> Attempts<ExtractReply>, stopBefore: Option<nat>, st: Status)
    ensures var t := UrlPhaseResult(s, startUrl, parsed, Ok(info));
      |IdleIndices(t.pageTasks)| == |t.pageTasks| == (if info.totalPages >= 1 then info.totalPages else 1)
    ensures var t := UrlPhaseResult(s, startUrl, parsed, Ok(info));
      var v := Visited(false, stopBefore, |t.pageTasks|);
      var r := RunState(t, taskAttempts, v).(status := st);
      |r.pageTasks| == |t.pageTasks|
      && (forall p :: 0 <= p < |t.pageTasks| ==>
            r.pageTasks[p].pageNumber == p + 1
            && r.pageTasks[p] == if p < v then Finished(t.pageTasks[p], TaskRun(taskAttempts(p))) else t.pageTasks[p])
      && r.reviews == s.reviews + GainedBefore(taskAttempts, v)
  {
    var t := UrlPhaseResult(s, startUrl, parsed, Ok(info));
    UrlPhaseResultSpec(s, startUrl, parsed, Ok(info));
    FreshTasksRun(t, taskAttempts, stopBefore, st);
  }

  /** The trace of a retry resumed after the attempts already in `prefix`. */
  function Resume<T>(prefix: seq<Result<T>>, rest: RetryResult<T>): RetryResult<T> {
    RetryResult(rest.tab, prefix + rest.trace, rest.outcome)
  }

  /** One attempt of a resumed retry: it either ends the retry or resumes it at the next attempt. */
  lemma ResumeStep<R, T>(prefix: seq<Result<T>>, attempts: Attempts<R>, n: nat, tab: TabVar,
                         reply: R -> Result<T>, retryable: string -> bool)
    requires 1 <= n <= MaxRetries
    ensures var step := AttemptOnce(n, tab, AttemptAt(attempts, n), reply);
      var stops := step.1.Ok? || !retryable(ErrorText(step.1.error)) || n == MaxRetries;
      (stops ==> Resume(prefix, RetryFrom(attempts, n, tab, reply, retryable)) == RetryResult(step.0, prefix + [step.1], step.1))
      && (!stops ==> Resume(prefix, RetryFrom(attempts, n, tab, reply, retryable))
                       == Resume(prefix + [step.1], RetryFrom(attempts, n + 1, step.0, reply, retryable)))
  {
    var step := AttemptOnce(n, tab, AttemptAt(attempts, n), reply);
    if !(step.1.Ok? || !retryable(ErrorText(step.1.error)) || n == MaxRetries) {
      var rest := RetryFrom(attempts, n + 1, step.0, reply, retryable);
      assert prefix + ([step.1] + rest.trace) == (prefix + [step.1]) + rest.trace;
    }
  }

  /**
   * One attempt of the retry loop: the `tab` and trace after it, the outcome
   * when the retry ends with it, and otherwise the next attempt's number.
   */
  method RetryStep<R, T(==)>(attempts: Attempts<R>, reply: R -> Result<T>, retryable: string -> bool,
                             n: nat, tab: TabVar, trace: seq<Result<T>>)
    returns (tab': TabVar, trace': seq<Result<T>>, outcome: Option<Result<T>>, n': nat)
    requires 1 <= n <= MaxRetries
    ensures 1 <= n' <= MaxRetries && |trace'| == |trace| + 1
    ensures outcome.None? ==>
      (n' == n + 1
       && Resume(trace, RetryFrom(attempts, n, tab, reply, retryable))
          == Resume(trace', RetryFrom(attempts, n', tab', reply, retryable)))
    ensures outcome.Some? ==>
      (n' == n
       && Resume(trace, RetryFrom(attempts, n, tab, reply, retryable)) == RetryResult(tab', trace', outcome.value))
  {
    var step := AttemptOnce(n, tab, AttemptAt(attempts, n), reply);
    ResumeStep(trace, attempts, n, tab, reply, retryable);
    tab' := step.0;
    trace' := trace + [step.1];
    if step.1.Ok? || !retryable(ErrorText(step.1.error)) || n == MaxRetries {
      outcome := Some(step.1);
      n' := n;
    } else {
      outcome := None;
      n' := n + 1;
    }
  }

  /**
   * async-retry: run attempts until one succeeds, one fails with an error
   * that is not retried, or the third has failed; then settle.
   */
  method RetryAttempts<R, T(==)>(attempts: Attempts<R>, reply: R -> Result<T>, retryable: string -> bool)
    returns (r: RetryResult<T>)
    ensures r == Retry(attempts, reply, retryable)
  {
    var tab := NoTab;
    var trace: seq<Result<T>> := [];
    var n := 1;
    var outcome: Option<Result<T>> := None;
    ghost var goal := RetryFrom(attempts, 1, NoTab, reply, retryable);
    assert goal == Resume(trace, RetryFrom(attempts, n, tab, reply, retryable)) by {
      assert [] + goal.trace == goal.trace;
    }
    while outcome.None?
      invariant 1 <= n <= MaxRetries
      invariant outcome.None? ==> goal == Resume(trace, RetryFrom(attempts, n, tab, reply, retryable))
      invariant outcome.Some? ==> goal == RetryResult(tab, trace, outcome.value)
      invariant |trace| == if outcome.None? then n - 1 else n
      decreases MaxRetries - |trace|
    {
      tab, trace, outcome, n := RetryStep(attempts, reply, retryable, n, tab, trace);
    }
    r := RetryResult(tab, trace, Settled(trace, retryable));
  }

  // ---------------------------------------------------------------------------
  // The worker
  // ---------------------------------------------------------------------------

  /**
   * The worker's module state: the collection state, the stop flag, the tab
   * of the page task in progress, the ids of the tabs the worker holds open
   * (a tab created without a truthy id is never tracked), and every state
   * written to storage, oldest first.
   */
  class ReviewCollector {
    var state: CollectionState
    var shouldStop: bool
    var currentProcessingTabId: Option<nat>
    var openTabs: set<nat>
    var storage: seq<CollectionState>

    /** Between operations no page task holds a tab. */
    predicate Valid()
      reads this
    {
      currentProcessingTabId == None
    }

    /** Start-up: the initial state, replaced by the stored one when storage holds one. */
    constructor(stored: Option<CollectionState>)
      ensures Valid() && !shouldStop && openTabs == {}
      ensures state == (if stored.Some? then stored.value else InitialState)
      ensures storage == (if stored.Some? then [stored.value] else [])
    {
      state := if stored.Some? then stored.value else InitialState;
      storage := if stored.Some? then [stored.value] else [];
      shouldStop := false;
      currentProcessingTabId := None;
      openTabs := {};
    }

    /**
     * The retry of a phase: the first attempt's tab, when it has an id, is
     * now open and, for a page task, is the tab in progress; nothing else
     * changes.
     */
    method RunRetry<R, T(==)>(attempts: Attempts<R>, reply: R -> Result<T>, retryable: string -> bool, trackTab: bool)
      returns (r: RetryResult<T>)
      modifies this
      ensures r == Retry(attempts, reply, retryable)
      ensures openTabs == old(openTabs) + TabIds(r.tab)
      ensures currentProcessingTabId == if trackTab && TabId(r.tab).Some? then TabId(r.tab) else old(currentProcessingTabId)
      ensures state == old(state) && shouldStop == old(shouldStop) && storage == old(storage)
    {
      r := RetryAttempts(attempts, reply, retryable);
      openTabs := openTabs + TabIds(r.tab);
      if trackTab && TabId(r.tab).Some? {
        currentProcessingTabId := TabId(r.tab);
      }
    }

    /** stopCollection: raise the stop flag, show idle, close the tab in progress, save. */
    method StopCollection()
      modifies this
      ensures shouldStop && state == old(state).(status := Idle)
      ensures var busy := old(currentProcessingTabId).Some? && old(currentProcessingTabId).value != 0;
        currentProcessingTabId == (if busy then None else old(currentProcessingTabId))
        && openTabs == (if busy then old(openTabs) - {old(currentProcessingTabId).value} else old(openTabs))
      ensures storage == old(storage) + [state]
    {
      shouldStop := true;
      state := state.(status := Idle);
      if currentProcessingTabId.Some? && currentProcessingTabId.value != 0 {
        openTabs := openTabs - {currentProcessingTabId.value};
        currentProcessingTabId := None;
      }
      storage := storage + [state];
    }

    /**
     * collectPageUrls: show URL collection and save; ask the first page for
     * its counts (with retries); on success one idle task per page and the
     * review phase, on failure the error status; save; close the tab.
     * `stopDuringLoad` says whether a stop request arrives while the first
     * page loads.
     */
    method CollectPageUrls(startUrl: string, parsed: Url, attempts: Attempts<PageInfoReply>, stopDuringLoad: bool)
      returns (success: bool)
      requires Valid()
      modifies this
      ensures Valid()
      ensures success <==> UrlRun(attempts).outcome.Ok?
      ensures state == UrlPhaseResult(old(state), startUrl, parsed, UrlRun(attempts).outcome)
      ensures shouldStop == (old(shouldStop) || stopDuringLoad)
      ensures openTabs == old(openTabs) - TabIds(UrlRun(attempts).tab)
      ensures storage == old(storage) + [old(state).(status := UrlCollecting)]
                         + (if stopDuringLoad then [old(state).(status := Idle)] else []) + [state]
      ensures SavedSince(old(storage), storage, state)
    {
      state := state.(status := UrlCollecting);
      storage := storage + [state];
      if stopDuringLoad {
        StopCollection();
      }
      var r := RunRetry(attempts, PageInfoOf, IsRetryableUrlError, false);
      success := EndUrlPhase(startUrl, parsed, r);
    }

    /** The end of the URL phase: the tasks or the error, saved; the tab is closed. */
    method EndUrlPhase(startUrl: string, parsed: Url, r: RetryResult<PageInfo>) returns (success: bool)
      requires Valid()
      modifies this
      ensures Valid() && shouldStop == old(shouldStop)
      ensures success <==> r.outcome.Ok?
      ensures state == UrlPhaseResult(old(state), startUrl, parsed, r.outcome)
      ensures openTabs == old(openTabs) - TabIds(r.tab)
      ensures storage == old(storage) + [state]
    {
      var s := state;
      match r.outcome {
        case Ok(info) =>
          var urls := BuildPageUrls(startUrl, parsed, info.totalPages);
          s := s.(pageTasks := TasksFor(urls), expectedTotalReviews := info.totalReviews,
                  totalPageCount := Some(info.totalPages), status := ReviewCollecting);
          success := true;
        case Err(e) =>
          s := s.(status := Failed, error := Some(UrlErrorPrefix + ErrorText(e)));
          success := false;
      }
      state := s;
      storage := storage + [s];
      if TabId(r.tab).Some? {
        openTabs := openTabs - {TabId(r.tab).value};
      }
    }

    /**
     * processSinglePageTask: mark the task processing, record its page and
     * save; load the page (with retries) and append its reviews, or mark the
     * task failed with the error text; close the tab, forget it, save.
     */
    method ProcessSinglePageTask(k: nat, attempts: Attempts<ExtractReply>)
      requires Valid() && k < |state.pageTasks|
      modifies this
      ensures Valid() && shouldStop == old(shouldStop)
      ensures state == AfterTask(old(state), k, TaskRun(attempts))
      ensures openTabs == old(openTabs) - TabIds(TaskRun(attempts).tab)
      ensures storage == old(storage) + [TaskStarted(old(state), k), state]
    {
      var task := state.pageTasks[k];
      ghost var s0 := state;
      var s := state.(pageTasks := state.pageTasks[k := task.(status := Processing)], currentPage := task.pageNumber);
      state := s;
      storage := storage + [s];
      var r := RunRetry(attempts, ReviewsOf, IsRetryablePageError, true);
      match r.outcome {
        case Ok(gained) =>
          s := s.(reviews := s.reviews + gained);
          s := s.(collectedReviewsCount := |s.reviews|);
          s := s.(pageTasks := s.pageTasks[k := task.(status := TaskCompleted)]);
        case Err(e) =>
          s := s.(pageTasks := s.pageTasks[k := task.(status := TaskFailed, errorMessage := Some(ErrorText(e)))]);
      }
      UpdateTwice(s0.pageTasks, k, task.(status := Processing), Finished(task, r));
      assert s == AfterTask(s0, k, r);
      state := s;
      if TabId(r.tab).Some? {
        openTabs := openTabs - {TabId(r.tab).value};
      }
      currentProcessingTabId := None;
      storage := storage + [state];
    }

    /**
     * One pass of the review loop over idle position `j`: a stop request due
     * before it is handled first; then a stop seen ends the loop, and
     * otherwise the task runs.
     */
    method RunIdleTaskAt(ghost s0: CollectionState, ghost stop0: bool, idle: seq<nat>, j: nat,
                         taskAttempts: nat -> Attempts<ExtractReply>, stopBefore: Option<nat>)
      returns (stopped: bool, next: nat)
      requires Valid() && idle == IdleIndices(s0.pageTasks) && j < |idle|
      requires StopProgress(stop0, stopBefore, |idle|, j, false, shouldStop)
      requires state.(status := s0.status) == RunState(s0, taskAttempts, j)
      modifies this
      ensures Valid() && openTabs <= old(openTabs) && old(storage) <= storage
      ensures next == if stopped then j else j + 1
      ensures next <= |idle| && StopProgress(stop0, stopBefore, |idle|, next, stopped, shouldStop)
      ensures state.(status := s0.status) == RunState(s0, taskAttempts, next)
    {
      ghost var flagBefore := shouldStop;
      if stopBefore == Some(j) {
        StopCollection();
      }
      if shouldStop {
        StopProgressHalt(stop0, stopBefore, |idle|, j, flagBefore);
        stopped, next := true, j;
      } else {
        StopProgressNext(stop0, stopBefore, |idle|, j);
        RunStateStep(s0, taskAttempts, j, state);
        ProcessSinglePageTask(idle[j], taskAttempts(j));
        stopped, next := false, j + 1;
      }
    }

    /**
     * collectReviewsFromTasks: run the tasks idle at the start, in order,
     * until a stop is seen; then show idle after a stop and completed
     * otherwise, and save. `stopBefore` is the position in the idle list
     * before which a stop request arrives (the list's length: after the last).
     */
    method CollectReviewsFromTasks(taskAttempts: nat -> Attempts<ExtractReply>, stopBefore: Option<nat>)
      requires Valid()
      modifies this
      ensures Valid()
      ensures shouldStop == StopSeen(old(shouldStop), stopBefore, |IdleIndices(old(state.pageTasks))|)
      ensures state == RunState(old(state), taskAttempts, Visited(old(shouldStop), stopBefore, |IdleIndices(old(state.pageTasks))|))
                         .(status := if shouldStop then Idle else Completed)
      ensures openTabs <= old(openTabs)
      ensures SavedSince(old(storage), storage, state)
    {
      var idle := IdleIndices(state.pageTasks);
      ghost var s0 := state;
      ghost var stop0 := shouldStop;
      var j, stopped := RunIdleTasks(s0, stop0, idle, taskAttempts, stopBefore);
      StopProgressEnd(stop0, stopBefore, |idle|, j, stopped, shouldStop);
      EndReviewPhase(RunState(s0, taskAttempts, j), s0.status, !stopped && stopBefore == Some(|idle|));
    }

    /** The review loop: the idle tasks in order, until a stop is seen. */
    method RunIdleTasks(ghost s0: CollectionState, ghost stop0: bool, idle: seq<nat>,
                        taskAttempts: nat -> Attempts<ExtractReply>, stopBefore: Option<nat>)
      returns (j: nat, stopped: bool)
      requires Valid() && idle == IdleIndices(s0.pageTasks) && state == s0 && shouldStop == stop0
      modifies this
      ensures Valid() && openTabs <= old(openTabs) && old(storage) <= storage
      ensures j <= |idle| && (stopped || j == |idle|)
      ensures StopProgress(stop0, stopBefore, |idle|, j, stopped, shouldStop)
      ensures state.(status := s0.status) == RunState(s0, taskAttempts, j)
    {
      j, stopped := 0, false;
      while j < |idle| && !stopped
        invariant j <= |idle|
        invariant StopProgress(stop0, stopBefore, |idle|, j, stopped, shouldStop)
        invariant state.(status := s0.status) == RunState(s0, taskAttempts, j)
        invariant Valid() && openTabs <= old(openTabs) && old(storage) <= storage
        decreases |idle| - j, if stopped then 0 else 1
      {
        stopped, j := RunIdleTaskAt(s0, stop0, idle, j, taskAttempts, stopBefore);
      }
    }

    /**
     * The end of the review loop: a stop request arriving after the last
     * task is handled, then the status is idle after a stop and completed
     * otherwise, and the state is saved.
     */
    method EndReviewPhase(ghost ran: CollectionState, ghost st0: Status, stopNow: bool)
      requires Valid() && state.(status := st0) == ran
      modifies this
      ensures Valid() && openTabs <= old(openTabs)
      ensures SavedSince(old(storage), storage, state)
      ensures shouldStop == (old(shouldStop) || stopNow)
      ensures state == ran.(status := if shouldStop then Idle else Completed)
    {
      if stopNow {
        StopCollection();
      }
      StatusOnly(state, ran, st0, if shouldStop then Idle else Completed);
      state := state.(status := if shouldStop then Idle else Completed);
      storage := storage + [state];
    }

    /**
     * startCollectionWorkflow: clear the stop flag, collect the page URLs,
     * and unless that failed or a stop arrived, run the review phase. The
     * reviews already held are kept: a new run appends to them.
     */
    method StartCollectionWorkflow(startUrl: string, parsed: Url, urlAttempts: Attempts<PageInfoReply>, stopDuringLoad: bool,
                                   taskAttempts: nat -> Attempts<ExtractReply>, stopBefore: Option<nat>)
      requires Valid()
      modifies this
      ensures Valid() && openTabs <= old(openTabs)
      ensures SavedSince(old(storage), storage, state)
      ensures var afterUrls := UrlPhaseResult(old(state), startUrl, parsed, UrlRun(urlAttempts).outcome);
        UrlRun(urlAttempts).outcome.Err? || stopDuringLoad ==> state == afterUrls && shouldStop == stopDuringLoad
      ensures var afterUrls := UrlPhaseResult(old(state), startUrl, parsed, UrlRun(urlAttempts).outcome);
        var n := |IdleIndices(afterUrls.pageTasks)|;
        UrlRun(urlAttempts).outcome.Ok? && !stopDuringLoad ==>
          shouldStop == StopSeen(false, stopBefore, n)
          && state == RunState(afterUrls, taskAttempts, Visited(false, stopBefore, n))
                        .(status := if shouldStop then Idle else Completed)
    {
      shouldStop := false;
      var success := CollectPageUrls(startUrl, parsed, urlAttempts, stopDuringLoad);
      if !success || shouldStop {
        return;
      }
      ghost var saved, afterUrls := storage, state;
      CollectReviewsFromTasks(taskAttempts, stopBefore);
      SavedAfter(old(storage), saved, storage, afterUrls, state);
    }

    /** CLEAR_DATA: back to the initial state, which is saved; the stop flag and tabs are left alone. */
    method ClearData()
      modifies this
      ensures state == InitialState && storage == old(storage) + [InitialState]
      ensures shouldStop == old(shouldStop) && currentProcessingTabId == old(currentProcessingTabId) && openTabs == old(openTabs)
    {
      state := InitialState;
      storage := storage + [state];
    }

    /** GET_STATE: the stored state, when there is one, replaces the one in memory and is returned. */
    method GetState() returns (s: CollectionState)
      modifies this
      ensures state == (if old(storage) == [] then old(state) else old(storage)[|old(storage)| - 1]) && s == state
      ensures storage == old(storage) && shouldStop == old(shouldStop)
      ensures currentProcessingTabId == old(currentProcessingTabId) && openTabs == old(openTabs)
    {
      if storage != [] {
        state := storage[|storage| - 1];
      }
      s := state;
    }
  }
}

/**
 * The background worker of the spam-list reporter. It asks the content script
 * whether the tab shows a list's member page, has it collect the member
 * URLs, and then visits the members one after another: each member's page is
 * opened in a new tab and, once loaded, the content script is asked to report
 * the account. Nothing is retried and every failure in a member's visit is
 * swallowed. The browser and the content script are inputs: the model is told
 * what each reply was, whether each tab was created (and with which id) and
 * whether it loaded in time.
 */
module SpamReporterBackground {
  import opened Wrappers
  import opened Browser

  // ---------------------------------------------------------------------------
  // State
  // ---------------------------------------------------------------------------

  datatype ReportStatus = Idle | Collecting | Reporting | Completed | Failed

  /** The progress record shown by the popup and saved to storage. */
  datatype ReportState = ReportState(
    status: ReportStatus,
    totalMembers: int,
    processedMembers: int,
    currentUserUrl: Option<string>,
    error: Option<string>
  )

  const InitialState: ReportState := ReportState(Idle, 0, 0, None, None)

  /** The reset at the start of a workflow: idle, no progress, no member, no error. */
  function Reset(s: ReportState): ReportState {
    s.(status := Idle, totalMembers := 0, processedMembers := 0, currentUserUrl := None, error := None)
  }

  // ---------------------------------------------------------------------------
  // Member collection
  // ---------------------------------------------------------------------------

  const NotListPageMessage: string := "リストメンバーページ（/i/lists/[list_id]/members）で実行してください"
  const CollectFailedMessage: string := "メンバー収集に失敗しました"

  /** The reply to CHECK_LIST_PAGE, or the message of the error sending it threw. */
  datatype CheckReply = ListPageCheckResult(isListPage: bool) | OtherCheckReply | CheckSendFailed(error: string)

  /** The reply to COLLECT_MEMBERS, or the message of the error sending it threw. */
  datatype CollectReply =
    | MembersCollected(userUrls: seq<string>)
    | CollectErrorReply(error: string)
    | OtherCollectReply
    | CollectSendFailed(error: string)

  /**
   * The message of the error the list-page check throws, if any: only an
   * explicit "not a list page" answer or a failed send stops the workflow;
   * any other reply lets it go on.
   */
  function ListPageError(reply: CheckReply): (r: Option<string>)
    ensures r.Some? <==> reply == ListPageCheckResult(false) || reply.CheckSendFailed?
    ensures reply == ListPageCheckResult(false) ==> r == Some(NotListPageMessage)
    ensures reply.CheckSendFailed? ==> r == Some(reply.error)
  {
    match reply
    case ListPageCheckResult(isListPage) => if isListPage then None else Some(NotListPageMessage)
    case OtherCheckReply => None
    case CheckSendFailed(e) => Some(e)
  }

  /** The member URLs the collection reply carries, or the message of the error thrown for it. */
  function MembersOf(reply: CollectReply): (r: Result<seq<string>>)
    ensures r.Ok? <==> reply.MembersCollected?
    ensures reply.MembersCollected? ==> r.value == reply.userUrls
    ensures reply.CollectErrorReply? || reply.CollectSendFailed? ==> r == Err(reply.error)
    ensures reply.OtherCollectReply? ==> r == Err(CollectFailedMessage)
  {
    match reply
    case MembersCollected(urls) => Ok(urls)
    case CollectErrorReply(e) => Err(e)
    case OtherCollectReply => Err(CollectFailedMessage)
    case CollectSendFailed(e) => Err(e)
  }

  /** What collectMembers returns or throws. */
  function CollectOutcome(check: CheckReply, collect: CollectReply): (r: Result<seq<string>>)
    ensures ListPageError(check).Some? ==> r == Err(ListPageError(check).value)
    ensures ListPageError(check).None? ==> r == MembersOf(collect)
  {
    match ListPageError(check)
    case Some(e) => Err(e)
    case None => MembersOf(collect)
  }

  /** A tab that is not a list's member page ends the workflow with the check's message, whatever the collection would say. */
  lemma NotListPageFails(collect: CollectReply)
    ensures CollectOutcome(ListPageCheckResult(false), collect) == Err(NotListPageMessage)
  {
  }

  // ---------------------------------------------------------------------------
  // Visiting the members
  // ---------------------------------------------------------------------------

  /** What the browser does while one member is visited. */
  datatype MemberVisit = MemberVisit(creation: TabCreation, load: Load)

  /** The truthy id of the member's tab, which is then the tab in progress and closed afterwards. */
  function MemberTab(visit: MemberVisit): Option<nat> {
    if visit.creation.Created? then TruthyId(visit.creation.id) else None
  }

  function MemberTabIds(visit: MemberVisit): set<nat> {
    if MemberTab(visit).Some? then {MemberTab(visit).value} else {}
  }

  /** REPORT_SPAM is sent exactly when the member's tab has an id and finished loading. */
  predicate ReportSent(visit: MemberVisit) {
    MemberTab(visit).Some? && visit.load == Loaded
  }

  /** When a stop request arrives, if at all. */
  datatype StopPoint =
    | NoStop
      /** while the content script collects the members */
    | DuringCollection
      /** before member `member` is looked at (after the last member when it equals their number) */
    | BeforeMember(member: nat)
      /** while member `member` is visited, after its report was sent and before its tab is closed */
    | DuringMember(member: nat)

  /** How many of `n` members the loop visits. */
  function Visited(stoppedBefore: bool, stop: StopPoint, n: nat): (v: nat)
    ensures v <= n
  {
    if stoppedBefore then 0
    else match stop
      case BeforeMember(k) => if k < n then k else n
      case DuringMember(k) => if k < n then k + 1 else n
      case _ => n
  }

  /** Whether a stop has been requested by the time the loop ends. */
  predicate StopSeen(stoppedBefore: bool, stop: StopPoint, n: nat) {
    stoppedBefore
    || (stop.BeforeMember? && stop.member <= n)
    || (stop.DuringMember? && stop.member < n)
  }

  /** Whether a stop has been requested before the loop looks at member `j`. */
  predicate FlagAt(stoppedBefore: bool, stop: StopPoint, j: nat) {
    stoppedBefore
    || (stop.BeforeMember? && stop.member < j)
    || (stop.DuringMember? && stop.member < j)
  }

  /**
   * The state once reportMembers has run over `urls` from `s`: idle after a
   * stop and completed otherwise, every member counted, the processed count
   * the number visited, and the current member the last one visited.
   */
  function ReportRun(s: ReportState, stoppedBefore: bool, urls: seq<string>, stop: StopPoint): (r: ReportState)
    ensures r.totalMembers == |urls| && 0 <= r.processedMembers <= r.totalMembers
    ensures r.status == Completed <==> !StopSeen(stoppedBefore, stop, |urls|)
    ensures r.status == Idle <==> StopSeen(stoppedBefore, stop, |urls|)
    ensures r.status == Completed ==> r.processedMembers == r.totalMembers
    ensures r.processedMembers > 0 ==> r.currentUserUrl == Some(urls[r.processedMembers - 1])
    ensures r.error == s.error
  {
    var v := Visited(stoppedBefore, stop, |urls|);
    s.(status := if StopSeen(stoppedBefore, stop, |urls|) then Idle else Completed,
       totalMembers := |urls|,
       processedMembers := v,
       currentUserUrl := if v > 0 then Some(urls[v - 1]) else s.currentUserUrl)
  }

  /** Without a stop every member is visited, and a stop before member `k` leaves exactly `k` processed. */
  lemma ReportRunStops(s: ReportState, urls: seq<string>, k: nat)
    ensures ReportRun(s, false, urls, NoStop).processedMembers == |urls|
    ensures ReportRun(s, false, urls, NoStop).status == Completed
    ensures k <= |urls| ==> ReportRun(s, false, urls, BeforeMember(k)).processedMembers == k
    ensures k < |urls| ==> ReportRun(s, false, urls, DuringMember(k)).processedMembers == k + 1
    ensures ReportRun(s, true, urls, NoStop).processedMembers == 0
  {
  }

  /** The members REPORT_SPAM went to, in visiting order, among the first `j`. */
  function SentReports(urls: seq<string>, visits: nat -> MemberVisit, j: nat): seq<string>
    requires j <= |urls|
    decreases j
  {
    if j == 0 then []
    else SentReports(urls, visits, j - 1) + (if ReportSent(visits(j - 1)) then [urls[j - 1]] else [])
  }

  /**
   * Every report goes to a visited member, at most one per member and in
   * member order; when every visit loads, every visited member is reported.
   */
  lemma {:induction false} SentReportsSpec(urls: seq<string>, visits: nat -> MemberVisit, j: nat)
    requires j <= |urls|
    ensures |SentReports(urls, visits, j)| <= j
    ensures forall x :: x in SentReports(urls, visits, j) ==> x in urls[..j]
    ensures (forall i :: 0 <= i < j ==> ReportSent(visits(i))) ==> SentReports(urls, visits, j) == urls[..j]
    decreases j
  {
    if j > 0 {
      SentReportsSpec(urls, visits, j - 1);
      assert urls[..j] == urls[..j - 1] + [urls[j - 1]];
    }
  }

  /** The ids of the tabs the first `j` member visits opened. */
  function VisitedTabIds(visits: nat -> MemberVisit, j: nat): set<nat>
    decreases j
  {
    if j == 0 then {} else VisitedTabIds(visits, j - 1) + MemberTabIds(visits(j - 1))
  }

  /** The loop has looked at `j` members, `stopped` says it broke out, and `flag` is the stop flag. */
  predicate LoopProgress(stop0: bool, stop: StopPoint, n: nat, j: nat, stopped: bool, flag: bool) {
    j <= Visited(stop0, stop, n)
    && (stopped ==> flag && j == Visited(stop0, stop, n) && StopSeen(stop0, stop, n))
    && (!stopped ==> flag == FlagAt(stop0, stop, j))
  }

  lemma LoopProgressStart(stop0: bool, stop: StopPoint, n: nat)
    ensures LoopProgress(stop0, stop, n, 0, false, stop0)
  {
  }

  /** Whether stopReporting has run once the loop has looked at `j` members: during the member before, or just before member `j` when that ended the loop. */
  predicate StopCalled(stop: StopPoint, j: nat, stopped: bool) {
    (j > 0 && stop == DuringMember(j - 1)) || (stopped && stop == BeforeMember(j))
  }

  /** The record after `j` members of the loop from `s1`, shown idle when stopReporting has run. */
  function MembersDone(s1: ReportState, urls: seq<string>, j: nat, idle: bool): ReportState
    requires j <= |urls|
  {
    s1.(processedMembers := j, currentUserUrl := if j > 0 then Some(urls[j - 1]) else s1.currentUserUrl,
        status := if idle then Idle else s1.status)
  }

  /** The loop's record, once the final status is set, is the closed form of the run. */
  lemma MembersDoneRun(s0: ReportState, stop0: bool, urls: seq<string>, stop: StopPoint, idle: bool)
    ensures var s1 := s0.(status := Reporting, totalMembers := |urls|, processedMembers := 0);
      MembersDone(s1, urls, Visited(stop0, stop, |urls|), idle).(status := if StopSeen(stop0, stop, |urls|) then Idle else Completed)
      == ReportRun(s0, stop0, urls, stop)
  {
  }

  /** A flag seen at member `j`, or a stop arriving just before it, ends the loop there. */
  lemma LoopProgressHalt(stop0: bool, stop: StopPoint, n: nat, j: nat, flag: bool)
    requires LoopProgress(stop0, stop, n, j, false, flag) && j < n
    requires flag || stop == BeforeMember(j)
    ensures LoopProgress(stop0, stop, n, j, true, true)
  {
  }

  /** Otherwise member `j` is visited, and a stop during it is the flag the next round sees. */
  lemma LoopProgressNext(stop0: bool, stop: StopPoint, n: nat, j: nat)
    requires LoopProgress(stop0, stop, n, j, false, false) && j < n
    requires stop != BeforeMember(j)
    ensures LoopProgress(stop0, stop, n, j + 1, false, stop == DuringMember(j))
  {
  }

  /** When the loop is over it has visited `Visited` members, and the flag is `StopSeen` once a stop after the last member is added. */
  lemma LoopProgressEnd(stop0: bool, stop: StopPoint, n: nat, j: nat, stopped: bool, flag: bool)
    requires LoopProgress(stop0, stop, n, j, stopped, flag)
    requires stopped || j >= n
    ensures j == Visited(stop0, stop, n)
    ensures (flag || (!stopped && stop == BeforeMember(n))) == StopSeen(stop0, stop, n)
  {
  }

  // ---------------------------------------------------------------------------
  // The worker
  // ---------------------------------------------------------------------------

  /**
   * The worker's module state: the progress record, the stop flag, the tab
   * of the member in progress, the ids of the tabs the worker holds open (a tab
   * created without a truthy id is never tracked), the record in
   * storage (none once cleared) and the members REPORT_SPAM was sent for.
   */
  class SpamReporter {
    var state: ReportState
    var shouldStop: bool
    var processingTabId: Option<nat>
    var openTabs: set<nat>
    var stored: Option<ReportState>
    var reported: seq<string>

    /** Between operations no member holds a tab. */
    predicate Valid()
      reads this
    {
      processingTabId == None
    }

    /** Start-up: the initial record, replaced by the stored one when storage holds one. */
    constructor(loaded: Option<ReportState>)
      ensures Valid() && !shouldStop && openTabs == {} && reported == []
      ensures state == (if loaded.Some? then loaded.value else InitialState) && stored == loaded
    {
      state := if loaded.Some? then loaded.value else InitialState;
      stored := loaded;
      shouldStop := false;
      processingTabId := None;
      openTabs := {};
      reported := [];
    }

    /** stopReporting: raise the stop flag, show idle, close the tab in progress, clear storage. */
    method StopReporting()
      modifies this
      ensures shouldStop && state == old(state).(status := Idle) && stored == None
      ensures var busy := TruthyId(old(processingTabId)).Some?;
        processingTabId == (if busy then None else old(processingTabId))
        && openTabs == (if busy then old(openTabs) - {old(processingTabId).value} else old(openTabs))
      ensures reported == old(reported)
    {
      shouldStop := true;
      state := state.(status := Idle);
      if TruthyId(processingTabId).Some? {
        openTabs := openTabs - {processingTabId.value};
        processingTabId := None;
      }
      stored := None;
    }

    /**
     * collectMembers: check the page, show collecting and save, and ask for
     * the members. `stopDuring` says whether a stop request arrives while
     * they are collected.
     */
    method CollectMembers(check: CheckReply, collect: CollectReply, stopDuring: bool) returns (r: Result<seq<string>>)
      requires Valid()
      modifies this
      ensures Valid() && r == CollectOutcome(check, collect)
      ensures ListPageError(check).Some? ==>
        state == old(state) && shouldStop == old(shouldStop) && stored == old(stored) && openTabs == old(openTabs)
      ensures ListPageError(check).None? ==>
        state == old(state).(status := if stopDuring then Idle else Collecting)
        && shouldStop == (old(shouldStop) || stopDuring)
        && stored == (if stopDuring then None else Some(old(state).(status := Collecting)))
        && openTabs == old(openTabs)
      ensures reported == old(reported)
    {
      var e := ListPageError(check);
      if e.Some? {
        return Err(e.value);
      }
      state := state.(status := Collecting);
      stored := Some(state);
      if stopDuring {
        StopReporting();
      }
      r := MembersOf(collect);
    }

    /**
     * One member: make it the current one, open its page, report it once
     * loaded, close the tab, forget it, count the member and save. Every
     * failure on the way is swallowed. `stopDuring` says whether a stop
     * request arrives before the tab is closed.
     */
    method ReportMember(url: string, visit: MemberVisit, stopDuring: bool)
      requires Valid()
      modifies this
      ensures Valid() && shouldStop == (old(shouldStop) || stopDuring)
      ensures state == old(state).(currentUserUrl := Some(url), processedMembers := old(state).processedMembers + 1,
                                   status := if stopDuring then Idle else old(state).status)
      ensures stored == Some(state)
      ensures reported == old(reported) + (if ReportSent(visit) then [url] else [])
      ensures openTabs == old(openTabs) - MemberTabIds(visit)
    {
      state := state.(currentUserUrl := Some(url));
      var tab := MemberTab(visit);
      if tab.Some? {
        openTabs := openTabs + {tab.value};
        processingTabId := tab;
        if visit.load == Loaded {
          reported := reported + [url];
        }
      }
      if stopDuring {
        StopReporting();
      }
      if tab.Some? {
        openTabs := openTabs - {tab.value};
      }
      processingTabId := None;
      state := state.(processedMembers := state.processedMembers + 1);
      stored := Some(state);
    }

    /**
     * One pass of the loop over member `j`: a stop request due before it is
     * handled first; then a stop seen ends the loop, and otherwise the member
     * is visited.
     */
    method ReportMemberAt(ghost s1: ReportState, ghost stop0: bool, ghost r0: seq<string>, ghost t0: set<nat>,
                          urls: seq<string>, j: nat, visits: nat -> MemberVisit, stop: StopPoint)
      returns (stopped: bool, next: nat)
      requires Valid() && j < |urls|
      requires LoopProgress(stop0, stop, |urls|, j, false, shouldStop)
      requires state == MembersDone(s1, urls, j, StopCalled(stop, j, false))
      requires reported == r0 + SentReports(urls, visits, j)
      requires openTabs == t0 - VisitedTabIds(visits, j)
      modifies this
      ensures Valid() && next == (if stopped then j else j + 1)
      ensures next <= |urls| && LoopProgress(stop0, stop, |urls|, next, stopped, shouldStop)
      ensures state == MembersDone(s1, urls, next, StopCalled(stop, next, stopped))
      ensures reported == r0 + SentReports(urls, visits, next)
      ensures openTabs == t0 - VisitedTabIds(visits, next)
      ensures stored == (if next == j then (if stop == BeforeMember(j) then None else old(stored)) else Some(state))
    {
      ghost var flagBefore := shouldStop;
      if stop == BeforeMember(j) {
        StopReporting();
      }
      if shouldStop {
        LoopProgressHalt(stop0, stop, |urls|, j, flagBefore);
        stopped, next := true, j;
      } else {
        LoopProgressNext(stop0, stop, |urls|, j);
        ReportMember(urls[j], visits(j), stop == DuringMember(j));
        stopped, next := false, j + 1;
      }
    }

    /**
     * reportMembers: show reporting with the member count and no progress,
     * save, visit the members in order until a stop is seen, then show idle
     * after a stop and completed otherwise, and save.
     */
    method ReportMembers(urls: seq<string>, visits: nat -> MemberVisit, stop: StopPoint)
      requires Valid()
      modifies this
      ensures Valid()
      ensures shouldStop == StopSeen(old(shouldStop), stop, |urls|)
      ensures state == ReportRun(old(state), old(shouldStop), urls, stop)
      ensures stored == Some(state)
      ensures reported == old(reported) + SentReports(urls, visits, Visited(old(shouldStop), stop, |urls|))
      ensures openTabs == old(openTabs) - VisitedTabIds(visits, Visited(old(shouldStop), stop, |urls|))
    {
      state := state.(status := Reporting, totalMembers := |urls|, processedMembers := 0);
      stored := Some(state);
      ghost var s1 := state;
      ghost var stop0 := shouldStop;
      ghost var r0 := reported;
      ghost var t0 := openTabs;
      LoopProgressStart(stop0, stop, |urls|);
      var j := 0;
      var stopped := false;
      while j < |urls| && !stopped
        invariant j <= |urls| && LoopProgress(stop0, stop, |urls|, j, stopped, shouldStop)
        invariant state == MembersDone(s1, urls, j, StopCalled(stop, j, stopped))
        invariant reported == r0 + SentReports(urls, visits, j)
        invariant openTabs == t0 - VisitedTabIds(visits, j)
        invariant Valid()
        decreases |urls| - j, if stopped then 0 else 1
      {
        stopped, j := ReportMemberAt(s1, stop0, r0, t0, urls, j, visits, stop);
      }
      LoopProgressEnd(stop0, stop, |urls|, j, stopped, shouldStop);
      ghost var done := state;
      if !stopped && stop == BeforeMember(|urls|) {
        StopReporting();
      }
      assert state.(status := Idle) == done.(status := Idle);
      assert state.(status := Completed) == done.(status := Completed);
      MembersDoneRun(old(state), stop0, urls, stop, StopCalled(stop, j, stopped));
      state := state.(status := if shouldStop then Idle else Completed);
      stored := Some(state);
    }

    /**
     * startReportWorkflow: clear the stop flag, reset the record and save,
     * collect the members, and unless a stop arrived meanwhile report them.
     * An error thrown on the way leaves the error status with its text.
     */
    method StartReportWorkflow(check: CheckReply, collect: CollectReply, visits: nat -> MemberVisit, stop: StopPoint)
      requires Valid()
      modifies this
      ensures Valid()
      ensures var outcome := CollectOutcome(check, collect);
        outcome.Err? ==>
          state == Reset(old(state)).(status := Failed, error := Some(ErrorText(outcome.error)))
          && shouldStop == (ListPageError(check).None? && stop.DuringCollection?)
          && stored == Some(state) && reported == old(reported) && openTabs == old(openTabs)
      ensures var outcome := CollectOutcome(check, collect);
        outcome.Ok? && stop.DuringCollection? ==>
          state == Reset(old(state)) && shouldStop && stored == None
          && reported == old(reported) && openTabs == old(openTabs)
      ensures var outcome := CollectOutcome(check, collect);
        outcome.Ok? && !stop.DuringCollection? ==>
          var v := Visited(false, stop, |outcome.value|);
          state == ReportRun(Reset(old(state)), false, outcome.value, stop)
          && shouldStop == StopSeen(false, stop, |outcome.value|)
          && stored == Some(state)
          && reported == old(reported) + SentReports(outcome.value, visits, v)
          && openTabs == old(openTabs) - VisitedTabIds(visits, v)
    {
      shouldStop := false;
      state := Reset(state);
      stored := Some(state);
      var r := CollectMembers(check, collect, stop == DuringCollection);
      match r {
        case Err(e) =>
          state := state.(status := Failed, error := Some(ErrorText(e)));
          stored := Some(state);
        case Ok(urls) =>
          if shouldStop {
            return;
          }
          ReportMembers(urls, visits, stop);
      }
    }
  }
}

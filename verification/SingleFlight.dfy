/** Every interleaving of browser tasks: one refresh in flight, all its waiters
    share one outcome, auth requests are sent once, other requests at most twice. */
module SingleFlight {
  import opened Wrappers
  import opened Text
  import opened ApiClient

  datatype Task =
    | Begin(url: string)
    | On401(request: nat)
    | OnAnswer(request: nat, ok: bool)
    | OnRefresh(outcome: Option<Tokens>)
    | OnSignIn(data: Tokens)

  function Do(tab: Tab, task: Task): Tab {
    match task
    case Begin(url) => Start(tab, url)
    case On401(k) => if k < |tab.requests| then Unauthorized(tab, k) else tab
    case OnAnswer(k, ok) => if k < |tab.requests| then Answered(tab, k, ok) else tab
    case OnRefresh(outcome) => RefreshSettled(tab, outcome)
    case OnSignIn(data) => StoreTokens(tab, data)
  }

  function Play(tab: Tab, tasks: seq<Task>): Tab
    decreases |tasks|
  {
    if tasks == [] then tab else Play(Do(tab, tasks[0]), tasks[1..])
  }

  const NEW_TAB: Tab := Tab([], None, None, false, [], 0)

  // ---- Counting what was sent --------------------------------------------------------

  function RefreshSends(outbox: seq<Message>): nat {
    if outbox == [] then 0
    else RefreshSends(outbox[..|outbox| - 1]) + (if outbox[|outbox| - 1].RefreshSend? then 1 else 0)
  }

  function AppSends(outbox: seq<Message>): nat {
    if outbox == [] then 0
    else AppSends(outbox[..|outbox| - 1]) + (if outbox[|outbox| - 1].AppSend? then 1 else 0)
  }

  function SendsOf(outbox: seq<Message>, k: nat): nat {
    if outbox == [] then 0
    else SendsOf(outbox[..|outbox| - 1], k)
         + (if outbox[|outbox| - 1].AppSend? && outbox[|outbox| - 1].request == k then 1 else 0)
  }

  lemma {:induction false} CountsAdd(a: seq<Message>, b: seq<Message>, k: nat)
    ensures RefreshSends(a + b) == RefreshSends(a) + RefreshSends(b)
    ensures AppSends(a + b) == AppSends(a) + AppSends(b)
    ensures SendsOf(a + b, k) == SendsOf(a, k) + SendsOf(b, k)
  {
    if b == [] {
      assert a + b == a;
    } else {
      assert (a + b)[..|a + b| - 1] == a + b[..|b| - 1];
      CountsAdd(a, b[..|b| - 1], k);
    }
  }

  lemma CountsOfOne(m: Message, k: nat)
    ensures RefreshSends([m]) == (if m.RefreshSend? then 1 else 0)
    ensures AppSends([m]) == (if m.AppSend? then 1 else 0)
    ensures SendsOf([m], k) == (if m.AppSend? && m.request == k then 1 else 0)
  {
    assert [m][..0] == [];
  }

  function WaitingCount(requests: seq<Request>, n: nat): nat
    requires n <= |requests|
  {
    if n == 0 then 0 else WaitingCount(requests, n - 1) + (if requests[n - 1].phase == Waiting then 1 else 0)
  }

  /** Requests that took the retry path, waiting or not. */
  function RetryCount(requests: seq<Request>, n: nat): (c: nat)
    requires n <= |requests|
    ensures c <= n
  {
    if n == 0 then 0 else RetryCount(requests, n - 1) + (if requests[n - 1].isRetry then 1 else 0)
  }

  lemma {:induction false} ResendsCounts(requests: seq<Request>, n: nat, bearer: Option<Access>, k: nat)
    requires n <= |requests|
    ensures RefreshSends(Resends(requests, n, bearer)) == 0
    ensures AppSends(Resends(requests, n, bearer)) == WaitingCount(requests, n)
    ensures SendsOf(Resends(requests, n, bearer), k) == if k < n && requests[k].phase == Waiting then 1 else 0
  {
    if n == 0 {
    } else {
      var before, m := Resends(requests, n - 1, bearer), AppSend(n - 1, bearer);
      ResendsCounts(requests, n - 1, bearer, k);
      CountsAdd(before, [m], k);
      CountsOfOne(m, k);
      assert Resends(requests, n, bearer) == if requests[n - 1].phase == Waiting then before + [m] else before;
    }
  }

  /** Counts only look at flags and phases of the first `n` requests. */
  lemma {:induction false} CountsLocal(a: seq<Request>, b: seq<Request>, n: nat)
    requires n <= |a| && n <= |b|
    requires forall i :: 0 <= i < n ==> a[i].isRetry == b[i].isRetry && a[i].phase == b[i].phase
    ensures RetryCount(a, n) == RetryCount(b, n) && WaitingCount(a, n) == WaitingCount(b, n)
  {
    if n == 0 {
    } else {
      CountsLocal(a, b, n - 1);
    }
  }

  lemma {:induction false} CountsUpdate(a: seq<Request>, k: nat, r: Request, n: nat)
    requires k < n <= |a|
    ensures RetryCount(a[k := r], n) == RetryCount(a, n) - (if a[k].isRetry then 1 else 0) + (if r.isRetry then 1 else 0)
    ensures WaitingCount(a[k := r], n)
      == WaitingCount(a, n) - (if a[k].phase == Waiting then 1 else 0) + (if r.phase == Waiting then 1 else 0)
  {
    if k == n - 1 {
      CountsLocal(a, a[k := r], n - 1);
    } else {
      CountsUpdate(a, k, r, n - 1);
    }
  }

  lemma {:induction false} NoneWaiting(requests: seq<Request>, n: nat)
    requires n <= |requests|
    ensures WaitingBelow(requests, n) <==> WaitingCount(requests, n) > 0
  {
    if n == 0 {
    } else {
      NoneWaiting(requests, n - 1);
    }
  }

  // ---- The invariant ----------------------------------------------------------------

  /** What one request may have sent, by flag and phase. */
  predicate SendsFit(r: Request, sends: nat) {
    && (!r.isRetry || r.phase == Waiting ==> sends == 1)
    && 1 <= sends <= 2
  }

  predicate RequestOk(tab: Tab, k: nat)
    requires k < |tab.requests|
  {
    var r := tab.requests[k];
    && (r.phase == Waiting ==> r.isRetry)
    && (r.isRetry ==> !IsAuthEndpoint(r.url))
    && SendsFit(r, SendsOf(tab.outbox, k))
  }

  predicate TotalsOk(tab: Tab) {
    && RefreshSends(tab.outbox) == tab.settled + (if tab.refreshPending then 1 else 0)
    && RefreshSends(tab.outbox) <= RetryCount(tab.requests, |tab.requests|)
    && AppSends(tab.outbox) + WaitingCount(tab.requests, |tab.requests|)
         <= |tab.requests| + RetryCount(tab.requests, |tab.requests|)
  }

  ghost predicate FlightOk(tab: Tab) {
    && (tab.refreshPending <==> AnyWaiting(tab.requests))
    && (forall k :: 0 <= k < |tab.requests| ==> RequestOk(tab, k))
    && (forall k: nat :: k >= |tab.requests| ==> SendsOf(tab.outbox, k) == 0)
    && TotalsOk(tab)
  }

  lemma BeginOk(tab: Tab, url: string)
    requires FlightOk(tab)
    ensures FlightOk(Start(tab, url))
  {
    var next := Start(tab, url);
    var sent := AppSend(|tab.requests|, tab.token);
    forall k: nat ensures SendsOf(next.outbox, k) == SendsOf(tab.outbox, k) + (if k == |tab.requests| then 1 else 0) {
      CountsAdd(tab.outbox, [sent], k);
      CountsOfOne(sent, k);
    }
    CountsAdd(tab.outbox, [sent], 0);
    CountsOfOne(sent, 0);
    CountsLocal(tab.requests, next.requests, |tab.requests|);
    NoneWaiting(tab.requests, |tab.requests|);
    NoneWaiting(next.requests, |next.requests|);
    forall k | 0 <= k < |next.requests| ensures RequestOk(next, k) {
      assert k < |tab.requests| ==> RequestOk(tab, k);
    }
  }

  /** Settling one request that is not waiting. */
  lemma PhaseOk(tab: Tab, k: nat, phase: Phase)
    requires FlightOk(tab) && k < |tab.requests| && tab.requests[k].phase == Sent && phase in {Resolved, Failed}
    ensures FlightOk(SetPhase(tab, k, phase)) && FlightOk(SetPhase(ClearAuthStorage(tab), k, phase))
  {
    var next := SetPhase(tab, k, phase);
    CountsUpdate(tab.requests, k, next.requests[k], |tab.requests|);
    NoneWaiting(tab.requests, |tab.requests|);
    NoneWaiting(next.requests, |next.requests|);
    forall j | 0 <= j < |next.requests| ensures RequestOk(next, j) && RequestOk(ClearAuthStorage(next), j) {
      assert RequestOk(tab, j);
    }
    assert SetPhase(ClearAuthStorage(tab), k, phase) == ClearAuthStorage(next);
  }

  lemma JoinOk(tab: Tab, k: nat)
    requires FlightOk(tab) && k < |tab.requests| && tab.requests[k].phase == Sent
    requires !tab.requests[k].isRetry && !IsAuthEndpoint(tab.requests[k].url)
    ensures FlightOk(Unauthorized(tab, k))
  {
    var next := Unauthorized(tab, k);
    CountsUpdate(tab.requests, k, next.requests[k], |tab.requests|);
    NoneWaiting(next.requests, |next.requests|);
    assert RequestOk(tab, k);
    if !tab.refreshPending {
      forall j: nat ensures SendsOf(next.outbox, j) == SendsOf(tab.outbox, j) {
        CountsAdd(tab.outbox, [RefreshSend(tab.refreshToken)], j);
        CountsOfOne(RefreshSend(tab.refreshToken), j);
      }
      CountsAdd(tab.outbox, [RefreshSend(tab.refreshToken)], 0);
      CountsOfOne(RefreshSend(tab.refreshToken), 0);
    }
    forall j | 0 <= j < |next.requests| ensures RequestOk(next, j) {
      assert RequestOk(tab, j);
    }
  }

  lemma UnauthorizedOk(tab: Tab, k: nat)
    requires FlightOk(tab) && k < |tab.requests|
    ensures FlightOk(Unauthorized(tab, k))
  {
    if tab.requests[k].phase == Sent {
      if tab.requests[k].isRetry || IsAuthEndpoint(tab.requests[k].url) {
        PhaseOk(tab, k, Failed);
      } else {
        JoinOk(tab, k);
      }
    }
  }

  lemma {:induction false} MovedCounts(requests: seq<Request>, to: Phase, n: nat)
    requires n <= |requests| && to != Waiting
    ensures RetryCount(Moved(requests, to), n) == RetryCount(requests, n) && WaitingCount(Moved(requests, to), n) == 0
  {
    if n == 0 {
    } else {
      MovedCounts(requests, to, n - 1);
    }
  }

  lemma SettledOk(tab: Tab, outcome: Option<Tokens>)
    requires FlightOk(tab)
    ensures FlightOk(RefreshSettled(tab, outcome))
  {
    if tab.refreshPending {
      var next := RefreshSettled(tab, outcome);
      var to := if outcome.Some? && outcome.value.accessToken != "" then Sent else Failed;
      var n := |tab.requests|;
      assert next.requests == Moved(tab.requests, to);
      MovedCounts(tab.requests, to, n);
      NoneWaiting(next.requests, n);
      if to == Sent {
        forall k: nat
          ensures SendsOf(next.outbox, k) == SendsOf(tab.outbox, k) + (if k < n && tab.requests[k].phase == Waiting then 1 else 0)
        {
          ResendsCounts(tab.requests, n, next.token, k);
          CountsAdd(tab.outbox, Resends(tab.requests, n, next.token), k);
        }
        ResendsCounts(tab.requests, n, next.token, 0);
        CountsAdd(tab.outbox, Resends(tab.requests, n, next.token), 0);
      }
      forall k | 0 <= k < n ensures RequestOk(next, k) {
        assert RequestOk(tab, k);
      }
    }
  }

  // ---- Reloading the page -----------------------------------------------------------------

  /** Requests die with their page. */
  function Died(requests: seq<Request>): (r: seq<Request>)
    ensures |r| == |requests|
    ensures forall k :: 0 <= k < |r| ==>
      r[k] == if requests[k].phase in {Sent, Waiting} then requests[k].(phase := Failed) else requests[k]
  {
    seq(|requests|, k requires 0 <= k < |requests| =>
      if requests[k].phase in {Sent, Waiting} then requests[k].(phase := Failed) else requests[k])
  }

  /** The module starts anew: the promise is gone, and its refresh counts as settled;
      local storage stays. */
  function Reloaded(tab: Tab): Tab {
    tab.(requests := Died(tab.requests), refreshPending := false, settled := tab.settled + if tab.refreshPending then 1 else 0)
  }

  lemma {:induction false} DiedCounts(requests: seq<Request>, n: nat)
    requires n <= |requests|
    ensures RetryCount(Died(requests), n) == RetryCount(requests, n) && WaitingCount(Died(requests), n) == 0
  {
    if n == 0 {
    } else {
      DiedCounts(requests, n - 1);
    }
  }

  lemma ReloadedOk(tab: Tab)
    requires FlightOk(tab)
    ensures FlightOk(Reloaded(tab))
  {
    var next := Reloaded(tab);
    DiedCounts(tab.requests, |tab.requests|);
    NoneWaiting(next.requests, |next.requests|);
    forall k | 0 <= k < |next.requests| ensures RequestOk(next, k) {
      assert RequestOk(tab, k);
    }
  }

  lemma DoOk(tab: Tab, task: Task)
    requires FlightOk(tab)
    ensures FlightOk(Do(tab, task))
  {
    match task
    case Begin(url) => BeginOk(tab, url);
    case On401(k) => if k < |tab.requests| { UnauthorizedOk(tab, k); }
    case OnAnswer(k, ok) =>
      if k < |tab.requests| && tab.requests[k].phase == Sent {
        PhaseOk(tab, k, if ok then Resolved else Failed);
      }
    case OnRefresh(outcome) => SettledOk(tab, outcome);
    case OnSignIn(data) =>
      forall k | 0 <= k < |tab.requests| ensures RequestOk(StoreTokens(tab, data), k) {
        assert RequestOk(tab, k);
      }
  }

  lemma {:induction false} PlayOk(tab: Tab, tasks: seq<Task>)
    requires FlightOk(tab)
    ensures FlightOk(Play(tab, tasks))
    decreases |tasks|
  {
    if tasks == [] {
    } else {
      DoOk(tab, tasks[0]);
      PlayOk(Do(tab, tasks[0]), tasks[1..]);
    }
  }

  /** In every run of a tab: at most one refresh is outstanding; n requests cause
      at most 2n sends and n refreshes; an auth request is sent exactly once and
      any other at most twice. */
  lemma SingleFlightAndBoundedWork(tasks: seq<Task>)
    ensures var tab := Play(NEW_TAB, tasks);
      var n := |tab.requests|;
      && tab.settled <= RefreshSends(tab.outbox) <= tab.settled + 1
      && (RefreshSends(tab.outbox) == tab.settled + 1 <==> tab.refreshPending)
      && RefreshSends(tab.outbox) <= n && AppSends(tab.outbox) <= 2 * n
      && (forall k :: 0 <= k < n ==> 1 <= SendsOf(tab.outbox, k) <= 2)
      && (forall k :: 0 <= k < n && IsAuthEndpoint(tab.requests[k].url) ==> SendsOf(tab.outbox, k) == 1)
  {
    assert FlightOk(NEW_TAB);
    PlayOk(NEW_TAB, tasks);
    var tab := Play(NEW_TAB, tasks);
    forall k | 0 <= k < |tab.requests|
      ensures 1 <= SendsOf(tab.outbox, k) <= 2 && (IsAuthEndpoint(tab.requests[k].url) ==> SendsOf(tab.outbox, k) == 1)
    {
      assert RequestOk(tab, k);
    }
  }

  lemma {:induction false} ResendsBearer(requests: seq<Request>, n: nat, bearer: Option<Access>)
    requires n <= |requests|
    ensures forall m :: m in Resends(requests, n, bearer) ==>
      m.AppSend? && m.bearer == bearer && m.request < n && requests[m.request].phase == Waiting
  {
    if n == 0 {
    } else {
      ResendsBearer(requests, n - 1, bearer);
    }
  }

  /** One settlement decides for every waiter: all are resent, once each, with the
      same new access token, or all fail and the stored tokens are gone. */
  lemma SettlementIsAllOrNothing(tab: Tab, outcome: Option<Tokens>)
    requires FlightOk(tab) && tab.refreshPending
    ensures var next := RefreshSettled(tab, outcome);
      var n := |tab.requests|;
      if outcome.Some? && outcome.value.accessToken != "" then
        && next.outbox == tab.outbox + next.outbox[|tab.outbox|..]
        && (forall m :: m in next.outbox[|tab.outbox|..] ==> m.AppSend? && m.bearer == Some(outcome.value.accessToken))
        && (forall k :: 0 <= k < n && tab.requests[k].phase == Waiting ==>
              next.requests[k].phase == Sent && SendsOf(next.outbox[|tab.outbox|..], k) == 1)
      else
        && next.outbox == tab.outbox && next.token.None? && next.refreshToken.None?
        && (forall k :: 0 <= k < n && tab.requests[k].phase == Waiting ==> next.requests[k].phase == Failed)
  {
    var next := RefreshSettled(tab, outcome);
    var n := |tab.requests|;
    if outcome.Some? && outcome.value.accessToken != "" {
      assert next.outbox[|tab.outbox|..] == Resends(tab.requests, n, next.token);
      ResendsBearer(tab.requests, n, next.token);
      forall k | 0 <= k < n ensures SendsOf(next.outbox[|tab.outbox|..], k) == if tab.requests[k].phase == Waiting then 1 else 0 {
        ResendsCounts(tab.requests, n, next.token, k);
      }
    }
  }

  // ---- What is sent, from the history alone ---------------------------------------------------------

  /** What local storage holds. */
  datatype Stored = Stored(access: Option<Access>, secret: Option<Secret>)

  function Keep(now: Stored, data: Tokens): Stored {
    Stored(if data.accessToken == "" then now.access else Some(data.accessToken),
           if data.refreshToken == "" then now.secret else Some(data.refreshToken))
  }

  /** What one task makes of it: a sign-in or refresh stores its tokens, a failed
      refresh or retry clears them. */
  function StoredStep(tab: Tab, now: Stored, task: Task): Stored {
    match task
    case OnSignIn(data) => Keep(now, data)
    case OnRefresh(outcome) =>
      if !tab.refreshPending then now
      else if outcome.Some? && outcome.value.accessToken != "" then Keep(now, outcome.value)
      else Stored(None, None)
    case On401(k) => if k < |tab.requests| && tab.requests[k].phase == Sent && tab.requests[k].isRetry then Stored(None, None) else now
    case _ => now
  }

  /** What the tasks so far have left in storage. */
  function StoredAfter(tasks: seq<Task>): Stored {
    if tasks == [] then Stored(None, None)
    else
      var before := tasks[..|tasks| - 1];
      StoredStep(Play(NEW_TAB, before), StoredAfter(before), tasks[|tasks| - 1])
  }

  lemma {:induction false} PlaySnoc(tab: Tab, tasks: seq<Task>, last: Task)
    ensures Play(tab, tasks + [last]) == Do(Play(tab, tasks), last)
    decreases |tasks|
  {
    if tasks == [] {
      assert tasks + [last] == [last] && [last][1..] == [];
    } else {
      assert (tasks + [last])[1..] == tasks[1..] + [last];
      PlaySnoc(Do(tab, tasks[0]), tasks[1..], last);
    }
  }

  lemma StorageStep(tab: Tab, task: Task)
    requires FlightOk(tab)
    ensures StoredStep(tab, Stored(tab.token, tab.refreshToken), task) == Stored(Do(tab, task).token, Do(tab, task).refreshToken)
  {
  }

  lemma {:induction false} StorageFollows(tasks: seq<Task>)
    ensures var tab := Play(NEW_TAB, tasks); FlightOk(tab) && StoredAfter(tasks) == Stored(tab.token, tab.refreshToken)
  {
    assert FlightOk(NEW_TAB);
    PlayOk(NEW_TAB, tasks);
    if tasks == [] {
    } else {
      var before, last := tasks[..|tasks| - 1], tasks[|tasks| - 1];
      assert tasks == before + [last];
      PlaySnoc(NEW_TAB, before, last);
      StorageFollows(before);
      StorageStep(Play(NEW_TAB, before), last);
    }
  }

  /** What one task sends, given what is stored: a new request with the stored access
      token, a refresh with the stored secret, or the retries with the new access token. */
  ghost predicate SendsRightly(tab: Tab, task: Task, stored: Stored, sent: seq<Message>) {
    match task
    case Begin(_) => sent == [AppSend(|tab.requests|, stored.access)]
    case On401(k) => sent == [] || sent == [RefreshSend(stored.secret)]
    case OnRefresh(outcome) =>
      forall m :: m in sent ==> outcome.Some? && outcome.value.accessToken != "" && m.AppSend?
                                && m.bearer == Some(outcome.value.accessToken) && m.request < |tab.requests|
    case _ => sent == []
  }

  lemma DoSends(tab: Tab, task: Task)
    requires FlightOk(tab)
    ensures var next := Do(tab, task);
      tab.outbox <= next.outbox && SendsRightly(tab, task, Stored(tab.token, tab.refreshToken), next.outbox[|tab.outbox|..])
  {
    if task.OnRefresh? && tab.refreshPending {
      SettlementIsAllOrNothing(tab, task.outcome);
      var next := Do(tab, task);
      if task.outcome.Some? && task.outcome.value.accessToken != "" {
        assert next.outbox[|tab.outbox|..] == Resends(tab.requests, |tab.requests|, next.token);
        ResendsBearer(tab.requests, |tab.requests|, next.token);
      }
    }
  }

  /** Over every run of a tab, whatever is sent carries what the history has stored. */
  lemma EverySendIsRight(tasks: seq<Task>, task: Task)
    ensures var tab, next := Play(NEW_TAB, tasks), Play(NEW_TAB, tasks + [task]);
      tab.outbox <= next.outbox && SendsRightly(tab, task, StoredAfter(tasks), next.outbox[|tab.outbox|..])
  {
    PlaySnoc(NEW_TAB, tasks, task);
    StorageFollows(tasks);
    DoSends(Play(NEW_TAB, tasks), task);
  }

  // ---- Which requests are retried -------------------------------------------------------------------

  /** The paths whose 401 is final. */
  const AUTH_PATHS: set<string> := {"/auth/login", "/auth/register", "/auth/refresh", "/auth/logout", "/auth/oauth/google"}

  /** The first 401 of a request is final exactly for the authentication paths: any
      other request waits for a refresh. */
  lemma RetriedIff(tab: Tab, k: nat)
    requires k < |tab.requests| && tab.requests[k].phase == Sent && !tab.requests[k].isRetry
    ensures var r := Unauthorized(tab, k).requests[k];
      if exists path :: path in AUTH_PATHS && Holds(tab.requests[k].url, path)
      then r.phase == Failed && !r.isRetry else r.phase == Waiting && r.isRetry
  {
    var url := tab.requests[k].url;
    forall path | path in AUTH_PATHS ensures Contains(url, path) <==> Holds(url, path) {
      ContainsIff(url, path);
    }
    AuthPathsAre(url);
  }

  lemma AuthPathsAre(url: string)
    ensures IsAuthEndpoint(url) <==> exists path :: path in AUTH_PATHS && Contains(url, path)
  {
  }
}

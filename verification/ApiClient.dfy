/** react-app/src/lib/apiClient.js in one browser tab. Each browser task is one
    step; `refreshPromise`, the stored tokens and the per-request retry flag are
    updated in place, and everything sent is kept in `outbox`. */
module ApiClient {
  import opened Wrappers
  import opened Text

  type Access = string
  type Secret = string

  /** Where a request's promise stands; `Waiting` awaits the shared refresh. */
  datatype Phase = Sent | Waiting | Resolved | Failed

  datatype Request = Request(url: string, isRetry: bool, phase: Phase)

  datatype Message =
    | AppSend(request: nat, bearer: Option<Access>)
    | RefreshSend(secret: Option<Secret>)

  /** `settled` counts the refreshes whose promise has settled. */
  datatype Tab = Tab(
    requests: seq<Request>, token: Option<Access>, refreshToken: Option<Secret>,
    refreshPending: bool, outbox: seq<Message>, settled: nat)

  /** What the refresh POST came back with; None is an HTTP or network error. */
  datatype Tokens = Tokens(accessToken: string, refreshToken: string)

  predicate IsAuthEndpoint(url: string) {
    || Contains(url, "/auth/login") || Contains(url, "/auth/register") || Contains(url, "/auth/refresh")
    || Contains(url, "/auth/logout") || Contains(url, "/auth/oauth/google")
  }

  // ---- Tasks, as functions of the tab ---------------------------------------------

  function Start(tab: Tab, url: string): Tab {
    tab.(requests := tab.requests + [Request(url, false, Sent)],
         outbox := tab.outbox + [AppSend(|tab.requests|, tab.token)])
  }

  function ClearAuthStorage(tab: Tab): Tab {
    tab.(token := None, refreshToken := None)
  }

  function SetPhase(tab: Tab, k: nat, phase: Phase): Tab
    requires k < |tab.requests|
  {
    tab.(requests := tab.requests[k := tab.requests[k].(phase := phase)])
  }

  /** `_setTokensFromResponse`: empty fields leave the stored ones alone. */
  function StoreTokens(tab: Tab, data: Tokens): Tab {
    tab.(token := if data.accessToken != "" then Some(data.accessToken) else tab.token,
         refreshToken := if data.refreshToken != "" then Some(data.refreshToken) else tab.refreshToken)
  }

  /** The interceptor on a 401: fail, join the pending refresh, or start one. */
  function Unauthorized(tab: Tab, k: nat): Tab
    requires k < |tab.requests|
  {
    var r := tab.requests[k];
    if r.phase != Sent then tab
    else if r.isRetry then SetPhase(ClearAuthStorage(tab), k, Failed)
    else if IsAuthEndpoint(r.url) then SetPhase(tab, k, Failed)
    else
      var joined := tab.(requests := tab.requests[k := r.(isRetry := true, phase := Waiting)]);
      if tab.refreshPending then joined
      else joined.(refreshPending := true, outbox := tab.outbox + [RefreshSend(tab.refreshToken)])
  }

  /** Any other answer settles the request. */
  function Answered(tab: Tab, k: nat, ok: bool): Tab
    requires k < |tab.requests|
  {
    if tab.requests[k].phase != Sent then tab else SetPhase(tab, k, if ok then Resolved else Failed)
  }

  function Settle(r: Request, to: Phase): Request {
    if r.phase == Waiting then r.(phase := to) else r
  }

  function Moved(requests: seq<Request>, to: Phase): (r: seq<Request>)
    ensures |r| == |requests| && forall k :: 0 <= k < |r| ==> r[k] == Settle(requests[k], to)
  {
    seq(|requests|, k requires 0 <= k < |requests| => Settle(requests[k], to))
  }

  predicate WaitingBelow(requests: seq<Request>, n: nat)
    requires n <= |requests|
  {
    exists k :: 0 <= k < n && requests[k].phase == Waiting
  }

  predicate AnyWaiting(requests: seq<Request>) {
    WaitingBelow(requests, |requests|)
  }

  /** The retries that the first `n` requests send if waiting, in order. */
  function Resends(requests: seq<Request>, n: nat, bearer: Option<Access>): seq<Message>
    requires n <= |requests|
  {
    if n == 0 then []
    else Resends(requests, n - 1, bearer) + (if requests[n - 1].phase == Waiting then [AppSend(n - 1, bearer)] else [])
  }

  /** The refresh promise settles: every waiter resumes, or every waiter fails. */
  function RefreshSettled(tab: Tab, outcome: Option<Tokens>): Tab {
    if !tab.refreshPending then tab
    else
      var stored := if outcome.Some? then StoreTokens(tab, outcome.value) else tab;
      var quiet := stored.(refreshPending := false, settled := tab.settled + 1);
      if outcome.Some? && outcome.value.accessToken != "" then
        quiet.(requests := Moved(tab.requests, Sent), outbox := tab.outbox + Resends(tab.requests, |tab.requests|, quiet.token))
      else
        var failed := quiet.(requests := Moved(tab.requests, Failed));
        if AnyWaiting(tab.requests) then ClearAuthStorage(failed) else failed
  }

  // ---- The module, updated in place ------------------------------------------------

  class Client {
    var requests: seq<Request>
    var token: Option<Access>
    var refreshToken: Option<Secret>
    var refreshPending: bool
    var outbox: seq<Message>
    var settled: nat

    ghost function Contents(): Tab
      reads this
    {
      Tab(requests, token, refreshToken, refreshPending, outbox, settled)
    }

    constructor ()
      ensures Contents() == Tab([], None, None, false, [], 0)
    {
      requests, token, refreshToken, refreshPending, outbox, settled := [], None, None, false, [], 0;
    }

    method StartRequest(url: string)
      modifies this
      ensures Contents() == Start(old(Contents()), url)
      ensures outbox == old(outbox) + [AppSend(|old(requests)|, old(token))]
    {
      outbox := outbox + [AppSend(|requests|, token)];
      requests := requests + [Request(url, false, Sent)];
    }

    method ClearStorage()
      modifies this`token, this`refreshToken
      ensures Contents() == ClearAuthStorage(old(Contents()))
    {
      token := None;
      refreshToken := None;
    }

    method SetTokens(data: Tokens)
      modifies this`token, this`refreshToken
      ensures Contents() == StoreTokens(old(Contents()), data)
    {
      if data.accessToken != "" {
        token := Some(data.accessToken);
      }
      if data.refreshToken != "" {
        refreshToken := Some(data.refreshToken);
      }
    }

    method OnUnauthorized(k: nat)
      requires k < |requests| && requests[k].phase == Sent
      modifies this
      ensures Contents() == Unauthorized(old(Contents()), k)
    {
      if requests[k].isRetry {
        ClearStorage();
        requests := requests[k := requests[k].(phase := Failed)];
        return;
      }
      if IsAuthEndpoint(requests[k].url) {
        requests := requests[k := requests[k].(phase := Failed)];
        return;
      }
      requests := requests[k := requests[k].(isRetry := true, phase := Waiting)];
      if !refreshPending {
        refreshPending := true;
        outbox := outbox + [RefreshSend(refreshToken)];
      }
    }

    /** The waiters' continuations after a successful refresh, in order. */
    method ResumeWaiters()
      modifies this`requests, this`outbox
      ensures requests == Moved(old(requests), Sent)
      ensures outbox == old(outbox) + Resends(old(requests), |old(requests)|, token)
    {
      ghost var before, sent := requests, outbox;
      for k := 0 to |requests|
        invariant |requests| == |before|
        invariant forall j :: 0 <= j < k ==> requests[j] == Settle(before[j], Sent)
        invariant forall j :: k <= j < |before| ==> requests[j] == before[j]
        invariant outbox == sent + Resends(before, k, token)
      {
        if requests[k].phase == Waiting {
          requests := requests[k := requests[k].(phase := Sent)];
          outbox := outbox + [AppSend(k, token)];
        }
      }
    }

    /** The waiters' continuations after a failed refresh: each clears the storage. */
    method FailWaiters()
      modifies this`requests, this`token, this`refreshToken
      ensures requests == Moved(old(requests), Failed)
      ensures token == if AnyWaiting(old(requests)) then None else old(token)
      ensures refreshToken == if AnyWaiting(old(requests)) then None else old(refreshToken)
    {
      ghost var before := requests;
      for k := 0 to |requests|
        invariant |requests| == |before|
        invariant forall j :: 0 <= j < k ==> requests[j] == Settle(before[j], Failed)
        invariant forall j :: k <= j < |before| ==> requests[j] == before[j]
        invariant token == if WaitingBelow(before, k) then None else old(token)
        invariant refreshToken == if WaitingBelow(before, k) then None else old(refreshToken)
      {
        if requests[k].phase == Waiting {
          ClearStorage();
          requests := requests[k := requests[k].(phase := Failed)];
        }
      }
    }

    method OnRefreshSettled(outcome: Option<Tokens>)
      requires refreshPending
      modifies this
      ensures Contents() == RefreshSettled(old(Contents()), outcome)
    {
      if outcome.Some? {
        SetTokens(outcome.value);
      }
      refreshPending := false;
      settled := settled + 1;
      if outcome.Some? && outcome.value.accessToken != "" {
        ResumeWaiters();
      } else {
        FailWaiters();
      }
    }
  }
}

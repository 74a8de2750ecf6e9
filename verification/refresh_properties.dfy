/** What the refresh coordinator guarantees over several steps: one refresh per burst of callers,
    one shared outcome delivered in order, a credential store purged on failure, public endpoints
    left alone, and at most one retry per request. */
module RefreshProperties {
  import opened Wrappers
  import opened JsText
  import opened Credentials
  import opened ApiClient

  /** Requests passing through the request interceptor one after another at the same instant, each
      reading the store and deciding in one step. */
  function RunRequests(c: Coordinator, configs: seq<Request>, now: int): (r: (Coordinator, seq<Step>))
    decreases |configs|
    ensures |r.1| == |configs| && r.0.store == c.store
    ensures c.Valid() ==> r.0.Valid()
    ensures c.isRefreshing || (|configs| >= 1 && AllPrivate(configs) && StaleToken(c.store, now)) ==> r.0.isRefreshing
    ensures c.isRefreshing ==> r.0.task == c.task
    ensures !c.isRefreshing && |configs| >= 1 && AllPrivate(configs) && StaleToken(c.store, now)
            ==> r.0.task == AwaitingRefresh(PendingRequest(configs[0]), c.store.refreshToken)
  {
    if configs == [] then (c, [])
    else
      var first := OnRequest(c, configs[0], ReadTokens(c.store), now);
      var rest := RunRequests(first.0, configs[1..], now);
      (rest.0, [first.1] + rest.1)
  }

  function PendingRequests(configs: seq<Request>): (ws: seq<Waiter>)
    ensures |ws| == |configs|
    ensures forall i :: 0 <= i < |configs| ==> ws[i] == PendingRequest(configs[i])
  {
    seq(|configs|, i requires 0 <= i < |configs| => PendingRequest(configs[i]))
  }

  function QueuedSteps(n: nat): (steps: seq<Step>)
    ensures |steps| == n && forall i :: 0 <= i < n ==> steps[i] == Queued
  {
    seq(n, i => Queued)
  }

  predicate AllPrivate(configs: seq<Request>) {
    forall i :: 0 <= i < |configs| ==> !IsPublicEndpoint(configs[i].url)
  }

  predicate StaleToken(s: Store, now: int) {
    ShouldRefresh(s.accessToken, s.accessTokenExpires, now)
  }

  /** While a refresh is in flight, callers that need a token join the end of the queue, in arrival
      order, and nothing else changes: no second refresh starts. */
  lemma {:induction false} QueueWhileRefreshing(c: Coordinator, configs: seq<Request>, now: int)
    requires c.Valid() && c.isRefreshing
    requires AllPrivate(configs) && StaleToken(c.store, now)
    ensures RunRequests(c, configs, now) == (c.(failedQueue := c.failedQueue + PendingRequests(configs)), QueuedSteps(|configs|))
    decreases |configs|
  {
    if configs == [] {
      assert c.failedQueue + PendingRequests(configs) == c.failedQueue;
    } else {
      var c1 := c.(failedQueue := c.failedQueue + [PendingRequest(configs[0])]);
      assert OnRequest(c, configs[0], ReadTokens(c.store), now) == (c1, Queued);
      assert AllPrivate(configs[1..]) by {
        forall i | 0 <= i < |configs[1..]| ensures !IsPublicEndpoint(configs[1..][i].url) {
          assert configs[1..][i] == configs[i + 1];
        }
      }
      QueueWhileRefreshing(c1, configs[1..], now);
      assert c1.failedQueue + PendingRequests(configs[1..]) == c.failedQueue + PendingRequests(configs);
      assert [Queued] + QueuedSteps(|configs| - 1) == QueuedSteps(|configs|);
    }
  }

  /** When any number of callers find the token stale and no refresh is in flight, exactly one
      refresh starts, the first caller's, with the refresh token stored at that moment, and every
      later caller waits in arrival order. */
  lemma OneRefreshPerBurst(c: Coordinator, configs: seq<Request>, now: int)
    requires c.Valid() && !c.isRefreshing && |configs| >= 1
    requires AllPrivate(configs) && StaleToken(c.store, now)
    ensures RunRequests(c, configs, now)
         == (Coordinator(true, c.failedQueue + PendingRequests(configs[1..]),
                         AwaitingRefresh(PendingRequest(configs[0]), c.store.refreshToken), c.store),
             [Refreshing] + QueuedSteps(|configs| - 1))
  {
    var c1 := Coordinator(true, c.failedQueue, AwaitingRefresh(PendingRequest(configs[0]), c.store.refreshToken), c.store);
    assert OnRequest(c, configs[0], ReadTokens(c.store), now) == (c1, Refreshing);
    assert AllPrivate(configs[1..]) by {
      forall i | 0 <= i < |configs[1..]| ensures !IsPublicEndpoint(configs[1..][i].url) {
        assert configs[1..][i] == configs[i + 1];
      }
    }
    QueueWhileRefreshing(c1, configs[1..], now);
  }

  /** The outcome of each caller of a burst once the refresh settles, in arrival order. */
  function BurstOutcomes(c: Coordinator, configs: seq<Request>, now: int, response: RefreshResponse): seq<Step>
    requires c.Valid() && !c.isRefreshing && |configs| >= 1
    requires AllPrivate(configs) && StaleToken(c.store, now)
  {
    OneRefreshPerBurst(c, configs, now);
    var settled := OnRefreshSettled(RunRequests(c, configs, now).0, response);
    [settled.2] + settled.1[|c.failedQueue|..]
  }

  /** A burst of callers that share one refresh all receive the same outcome: on success every request
      is sent with the one new access token and the store holds the new tokens; on failure every
      caller is rejected with the one error and the store holds no authentication key. Afterwards
      no refresh is in flight and the queue is empty. */
  lemma BurstSharesOneOutcome(c: Coordinator, configs: seq<Request>, now: int, response: RefreshResponse)
    requires c.Valid() && !c.isRefreshing && |configs| >= 1
    requires AllPrivate(configs) && StaleToken(c.store, now)
    ensures var attempt := RefreshAttempt(c.store.refreshToken, response);
            var after := OnRefreshSettled(RunRequests(c, configs, now).0, response).0;
            var outcomes := BurstOutcomes(c, configs, now, response);
            && |outcomes| == |configs|
            && !after.isRefreshing && after.failedQueue == [] && after.Valid()
            && (attempt.Success? ==>
                  && after.store == WithTokens(c.store, attempt.value)
                  && forall i :: 0 <= i < |configs| ==> outcomes[i] == Send(WithBearer(configs[i], attempt.value.accessToken)))
            && (attempt.Failure? ==>
                  && after.store == Cleared
                  && forall i :: 0 <= i < |configs| ==> outcomes[i] == Fail(attempt.error))
  {
    OneRefreshPerBurst(c, configs, now);
    var mid := RunRequests(c, configs, now).0;
    var settled := OnRefreshSettled(mid, response);
    var n := |c.failedQueue|;
    var outcomes := [settled.2] + settled.1[n..];
    forall i | 0 <= i < |configs|
      ensures outcomes[i] == Resume(PendingRequest(configs[i]), AccessTokenOf(RefreshAttempt(c.store.refreshToken, response)))
    {
      if i > 0 {
        assert outcomes[i] == settled.1[n + i - 1];
        assert mid.failedQueue[n + i - 1] == PendingRequest(configs[1..][i - 1]);
        assert configs[1..][i - 1] == configs[i];
      }
    }
  }

  /** A caller whose reads of the store returned a stale token before the refresh in flight settled,
      and which decides only after it has settled, starts a second refresh, whatever the first one
      stored. */
  lemma SecondRefreshAfterStaleRead(c: Coordinator, first: Request, late: Request, now: int, response: RefreshResponse)
    requires c.Valid() && !c.isRefreshing
    requires !IsPublicEndpoint(first.url) && !IsPublicEndpoint(late.url) && StaleToken(c.store, now)
    ensures var started := OnRequest(c, first, ReadTokens(c.store), now);
            var settled := OnRefreshSettled(started.0, response);
            var second := OnRequest(settled.0, late, ReadTokens(c.store), now);
            && started.1 == Refreshing
            && !settled.0.isRefreshing
            && second.1 == Refreshing
            && second.0.task == AwaitingRefresh(PendingRequest(late), settled.0.store.refreshToken)
  {
  }

  /** The logout request, `POST /auth/logout`, is not to a public endpoint: it goes through the
      interceptors like any other private request. */
  lemma LogoutEndpointIsPrivate()
    ensures !IsPublicEndpoint(Some("/auth/logout"))
  {
    var u := "/auth/logout";
    forall e, i | e in PublicEndpoints ensures !OccursAt(u, e, i) {
      if e == "/auth/login" && 0 <= i <= |u| - |e| {
        assert u[i..i + |e|][1] != e[1] || u[i..i + |e|][10] != e[10];
      }
    }
  }

  /** `refreshToken()` uses the refresh token stored when the refresh started. Say a 401 started the
      refresh while the stored access token still reads as fresh: the logout request reads that token
      and is sent at once instead of waiting, and `logout` then removes the keys while the refresh is
      in flight. If the server issues tokens, they are written back into the cleared store and the
      retried request goes out with them: the logout is undone. */
  lemma LogoutDuringRefreshIsUndone(c: Coordinator, failed: Request, logoutRequest: Request, seen: TokenRead, now: int, tokens: TokenSet)
    requires c.Valid() && !c.isRefreshing && !failed.retry && !IsPublicEndpoint(failed.url)
    requires Present(c.store.refreshToken)
    requires logoutRequest.url == Some("/auth/logout")
    requires !ShouldRefresh(seen.accessToken, seen.accessTokenExpires, now)
    ensures var started := OnResponseError(c, Some(401), failed);
            var sent := OnRequest(started.0, logoutRequest, seen, now);
            var settled := OnRefreshSettled(sent.0.(store := Cleared), Issued(tokens));
            && started.1 == Refreshing
            && sent.1 == Send(WithBearer(logoutRequest, seen.accessToken.value))
            && settled.0.store == WithTokens(Cleared, tokens)
            && settled.0.store.accessToken == Some(tokens.accessToken)
            && settled.2 == Resend(WithBearer(failed.(retry := true), tokens.accessToken))
  {
    LogoutEndpointIsPrivate();
  }

  /** After a failed refresh started by a 401, the handler removes the keys with the flag still set.
      A request that finds no token meanwhile joins the queue, which `processQueue` has already
      drained; once the flag is cleared it is still waiting, with no refresh in flight to release it. */
  lemma WaiterOrphanedWhileClearing(c: Coordinator, failing: Request, late: Request, seen: TokenRead, now: int, error: Error)
    requires c.Valid() && !c.isRefreshing
    requires !failing.retry && !IsPublicEndpoint(failing.url) && !IsPublicEndpoint(late.url)
    requires ShouldRefresh(seen.accessToken, seen.accessTokenExpires, now)
    ensures var started := OnResponseError(c, Some(401), failing);
            var settled := OnRefreshSettled(started.0, Refused(error));
            var queued := OnRequest(settled.0, late, seen, now);
            var finished := OnKeysCleared(queued.0);
            && started.1 == Refreshing
            && settled.1 == Resumed(c.failedQueue, AccessTokenOf(RefreshAttempt(c.store.refreshToken, Refused(error))))
            && settled.2 == Clearing
            && queued.1 == Queued
            && finished.1.Fail?
            && finished.0.Valid() && !finished.0.isRefreshing
            && finished.0.failedQueue == [PendingRequest(late)]
  {
  }

  /** A request to the login, register or refresh endpoint passes through untouched whatever the store
      holds, and a 401 from one of them is rejected without starting a refresh: the refresh call itself
      can never wait for a refresh. */
  lemma PublicEndpointsBypassAuth(c: Coordinator, config: Request, seen: TokenRead, now: int)
    requires IsPublicEndpoint(config.url)
    ensures OnRequest(c, config, seen, now) == (c, Send(config))
    ensures OnResponseError(c, Some(401), config).0 == c
    ensures OnResponseError(c, Some(401), config).1.Fail?
  {
  }

  /** The refresh call's own URL is public. */
  lemma {:induction false} RefreshEndpointIsPublic(url: string)
    requires Contains(url, "/auth/refresh")
    ensures IsPublicEndpoint(Some(url))
  {
    assert "/auth/refresh" in PublicEndpoints;
  }

  /** The request interceptor attaches a token without refreshing only when the token it read is
      present and either has no stored expiry or expires at least one minute from now; otherwise the
      caller starts the refresh or waits for the one in flight. */
  lemma AttachedTokenIsUsable(c: Coordinator, config: Request, seen: TokenRead, now: int)
    requires !IsPublicEndpoint(config.url)
    ensures var r := OnRequest(c, config, seen, now);
            r.1.Send? <==>
              && Present(seen.accessToken)
              && (seen.accessTokenExpires.None? || seen.accessTokenExpires.value >= now + OneMinute)
    ensures var r := OnRequest(c, config, seen, now);
            r.1.Send? ==> r.1.config == WithBearer(config, seen.accessToken.value)
  {
  }

  /** The one-minute margin is strict: a token expiring exactly one minute from now is still attached,
      one expiring a millisecond earlier is refreshed first. */
  lemma ExpiryMargin(c: Coordinator, config: Request, now: int, token: string)
    requires !IsPublicEndpoint(config.url) && token != ""
    ensures OnRequest(c, config, TokenRead(Some(token), Some(now + 60000)), now).1 == Send(WithBearer(config, token))
    ensures !OnRequest(c, config, TokenRead(Some(token), Some(now + 59999)), now).1.Send?
  {
  }

  /** Errors other than a 401, and a 401 on a request already marked `_retry`, are passed through
      unchanged and leave the state alone. */
  lemma OtherErrorsPassThrough(c: Coordinator, status: Option<int>, config: Request)
    requires status != Some(401) || config.retry
    ensures OnResponseError(c, status, config) == (c, Fail(HttpError(status, config)))
  {
  }

  /** A request is sent again at most once: the 401 handler marks it `_retry` before anything else,
      the request it resends carries the mark through the request interceptor, and a second 401 on it
      is passed through without another refresh. */
  lemma RetriedAtMostOnce(c: Coordinator, config: Request, token: string, later: Coordinator, seen: TokenRead, now: int)
    requires !config.retry && !IsPublicEndpoint(config.url)
    ensures OnResponseError(c, Some(401), config).1.Queued? || OnResponseError(c, Some(401), config).1.Refreshing?
    ensures var resend := Resume(PendingRetry(config.(retry := true)), Success(token));
            && resend == Resend(WithBearer(config.(retry := true), token))
            && var sent := OnRequest(later, resend.config, seen, now);
               && (sent.1.Send? ==> OnResponseError(later, Some(401), sent.1.config) == (later, Fail(HttpError(Some(401), sent.1.config))))
               && (sent.1.Queued? ==> sent.0.failedQueue[|sent.0.failedQueue| - 1].config.retry)
               && (sent.1.Refreshing? ==> sent.0.task.starter.config.retry)
  {
  }
}

/** The axios instance of the app with its two interceptors and the shared token-refresh state:
    the flag `isRefreshing`, the queue `failedQueue` of callers waiting for the refresh in flight,
    and the credential store. The interceptors are async functions: the code between two awaits runs
    to completion on the event loop, and each such stretch is one transition on the shared state.
    The transitions are: a request resumes from its two storage reads and decides (`OnRequest`); a
    response fails (`OnResponseError`); the refresh settles (`OnRefreshSettled`); and, after a failed
    refresh started by a 401, the removal of the keys completes (`OnKeysCleared`). Other transitions
    may run between a request's reads and its decision, and between the two last steps. */
module ApiClient {
  import opened Wrappers
  import opened JsText
  import opened Credentials

  /** An axios request config: its URL, its Authorization header and its `_retry` mark. */
  datatype Request = Request(url: Option<string>, authorization: Option<string>, retry: bool)

  datatype Error =
    | NoRefreshToken                                   // "No refresh token available"
    | HttpError(status: Option<int>, config: Request)  // an axios error: the response status, if any, and the config

  /** What POST /auth/refresh answered. */
  datatype RefreshResponse = Issued(tokens: TokenSet) | Refused(error: Error)

  /** A caller suspended until the refresh in flight settles: a request waiting for a token,
      or a request that got a 401 and waits to be sent again. */
  datatype Waiter = PendingRequest(config: Request) | PendingRetry(config: Request)

  /** What an interceptor does with its caller. */
  datatype Step =
    | Send(config: Request)    // the request goes out with this config
    | Resend(config: Request)  // `apiClient(config)`: the request is dispatched once more
    | Fail(error: Error)       // the interceptor rejects with this error
    | Queued                   // the caller was appended to failedQueue
    | Refreshing               // the caller started the refresh and awaits `refreshToken()`
    | Clearing                 // the 401 handler awaits the removal of the keys before rejecting

  /** What the request interceptor's two awaited reads of the access token and its expiry returned. */
  datatype TokenRead = TokenRead(accessToken: Option<string>, accessTokenExpires: Option<int>)

  function ReadTokens(s: Store): TokenRead {
    TokenRead(s.accessToken, s.accessTokenExpires)
  }

  const PublicEndpoints: seq<string> := ["/auth/login", "/auth/register", "/auth/refresh"]

  /** The safety margin before expiry, in milliseconds. */
  const OneMinute: int := 60 * 1000

  /** `publicEndpoints.some(e => url?.includes(e))`: one of the three paths occurs somewhere in the URL. */
  function IsPublicEndpoint(url: Option<string>): (r: bool)
    ensures r <==> url.Some? && exists e, i :: e in PublicEndpoints && OccursAt(url.value, e, i)
  {
    if url.None? then false
    else
      ContainsAt(url.value, PublicEndpoints[0]);
      ContainsAt(url.value, PublicEndpoints[1]);
      ContainsAt(url.value, PublicEndpoints[2]);
      exists e :: e in PublicEndpoints && Contains(url.value, e)
  }

  /** `isTokenExpired`: a token counts as expired once the time is later than one minute before its expiry. */
  function IsTokenExpired(expiresAt: int, now: int): (r: bool)
    ensures expiresAt <= now ==> r
    ensures r <==> now > expiresAt - OneMinute
  {
    expiresAt - now < OneMinute
  }

  /** The request interceptor's `shouldRefresh`: no usable token, or a stored expiry that is too close. */
  predicate ShouldRefresh(accessToken: Option<string>, accessTokenExpires: Option<int>, now: int) {
    !Present(accessToken) || (accessTokenExpires.Some? && IsTokenExpired(accessTokenExpires.value, now))
  }

  function Bearer(token: string): string {
    "Bearer " + token
  }

  function WithBearer(config: Request, token: string): Request {
    config.(authorization := Some(Bearer(token)))
  }

  /** What an interceptor that set `isRefreshing` is still doing: awaiting `refreshToken()`, which
      read the stored refresh token when it was called; or, in the 401 handler after a failed
      refresh, awaiting the removal of the keys before it rejects with the error. */
  datatype Task =
    | Idle
    | AwaitingRefresh(starter: Waiter, refreshToken: Option<string>)
    | ClearingKeys(error: Error)

  /** The shared state. */
  datatype Coordinator = Coordinator(isRefreshing: bool, failedQueue: seq<Waiter>, task: Task, store: Store) {
    /** The flag is set exactly while the interceptor that set it has not reached its `finally`. */
    predicate Valid() {
      isRefreshing == !task.Idle?
    }
  }

  /** The request interceptor, once its reads of the store have returned `seen`. */
  function OnRequest(c: Coordinator, config: Request, seen: TokenRead, now: int): (r: (Coordinator, Step))
    ensures c.Valid() ==> r.0.Valid()
    ensures r.0.store == c.store
    ensures c.isRefreshing ==> r.0.task == c.task
    ensures IsPublicEndpoint(config.url) ==> r == (c, Send(config))
    ensures r.1.Refreshing? ==>
              && !c.isRefreshing
              && r.0 == c.(isRefreshing := true, task := AwaitingRefresh(PendingRequest(config), c.store.refreshToken))
    ensures r.1.Queued? ==> c.isRefreshing && r.0 == c.(failedQueue := c.failedQueue + [PendingRequest(config)])
    ensures r.1.Send? ==> r.0 == c && r.1.config.retry == config.retry
    ensures r.1.Send? || r.1.Queued? || r.1.Refreshing?
  {
    if IsPublicEndpoint(config.url) then (c, Send(config))
    else if ShouldRefresh(seen.accessToken, seen.accessTokenExpires, now) then
      if c.isRefreshing then (c.(failedQueue := c.failedQueue + [PendingRequest(config)]), Queued)
      else (c.(isRefreshing := true, task := AwaitingRefresh(PendingRequest(config), c.store.refreshToken)), Refreshing)
    else (c, Send(WithBearer(config, seen.accessToken.value)))
  }

  /** The rejection handler of the response interceptor, for a failed call with this status and config. */
  function OnResponseError(c: Coordinator, status: Option<int>, config: Request): (r: (Coordinator, Step))
    ensures c.Valid() ==> r.0.Valid()
    ensures r.0.store == c.store
    ensures c.isRefreshing ==> r.0.task == c.task
    ensures r.1.Refreshing? ==>
              && !c.isRefreshing
              && r.0 == c.(isRefreshing := true, task := AwaitingRefresh(PendingRetry(config.(retry := true)), c.store.refreshToken))
    ensures r.1.Queued? ==> c.isRefreshing && r.0 == c.(failedQueue := c.failedQueue + [PendingRetry(config.(retry := true))])
    ensures r.1.Fail? ==> r.0 == c
    ensures r.1.Fail? || r.1.Queued? || r.1.Refreshing?
  {
    if status == Some(401) && !config.retry then
      var marked := config.(retry := true);
      if IsPublicEndpoint(marked.url) then (c, Fail(HttpError(status, marked)))
      else if c.isRefreshing then (c.(failedQueue := c.failedQueue + [PendingRetry(marked)]), Queued)
      else (c.(isRefreshing := true, task := AwaitingRefresh(PendingRetry(marked), c.store.refreshToken)), Refreshing)
    else (c, Fail(HttpError(status, config)))
  }

  /** What `refreshToken()` obtains from the refresh token it read: the issued tokens, or the error it rethrows. */
  function RefreshAttempt(refreshToken: Option<string>, response: RefreshResponse): Result<TokenSet, Error> {
    if !Present(refreshToken) then Failure(NoRefreshToken)
    else match response
      case Issued(t) => Success(t)
      case Refused(e) => Failure(e)
  }

  /** The store once `refreshToken()` has settled: the four token keys written, or all five keys removed. */
  function StoreAfterRefresh(s: Store, attempt: Result<TokenSet, Error>): Store {
    match attempt
    case Success(t) => WithTokens(s, t)
    case Failure(_) => Cleared
  }

  function AccessTokenOf(attempt: Result<TokenSet, Error>): Result<string, Error> {
    match attempt
    case Success(t) => Success(t.accessToken)
    case Failure(e) => Failure(e)
  }

  /** How a suspended caller continues once the refresh has given a token or an error. */
  function Resume(w: Waiter, outcome: Result<string, Error>): Step {
    match outcome
    case Failure(e) => Fail(e)
    case Success(token) =>
      match w
      case PendingRequest(config) => Send(WithBearer(config, token))
      case PendingRetry(config) => Resend(WithBearer(config, token))
  }

  /** The step of a waiter released with a token: its own request with that token as Bearer, sent
      when it waited for a token and dispatched again when it waited to retry a 401. */
  predicate ReleasedWith(step: Step, w: Waiter, token: string) {
    && (step.Send? || step.Resend?)
    && step.config == WithBearer(w.config, token)
    && (step.Send? <==> w.PendingRequest?)
  }

  /** What `processQueue` does to the waiters, in queue order: every one is rejected with the one
      error, or every one is released with the one token. */
  function Resumed(ws: seq<Waiter>, outcome: Result<string, Error>): (steps: seq<Step>)
    ensures |steps| == |ws|
    ensures outcome.Failure? ==> forall i :: 0 <= i < |ws| ==> steps[i] == Fail(outcome.error)
    ensures outcome.Success? ==> forall i :: 0 <= i < |ws| ==> ReleasedWith(steps[i], ws[i], outcome.value)
  {
    seq(|ws|, i requires 0 <= i < |ws| => Resume(ws[i], outcome))
  }

  /** The refresh in flight settles with the server's response. The store is updated, and every
      queued caller is resumed in order (first result). Then the caller that started the refresh
      continues (second result): it finishes, and the coordinator is idle again; except when a 401
      started the refresh and it failed, where the handler goes on to remove the keys with the flag
      still set. */
  function OnRefreshSettled(c: Coordinator, response: RefreshResponse): (r: (Coordinator, seq<Step>, Step))
    requires c.Valid() && c.task.AwaitingRefresh?
    ensures r.0.Valid() && r.0.failedQueue == [] && |r.1| == |c.failedQueue|
    ensures var a := RefreshAttempt(c.task.refreshToken, response);
            a.Success? ==>
              && !r.0.isRefreshing
              && r.0.store == WithTokens(c.store, a.value)
              && ReleasedWith(r.2, c.task.starter, a.value.accessToken)
              && forall i :: 0 <= i < |r.1| ==> ReleasedWith(r.1[i], c.failedQueue[i], a.value.accessToken)
    ensures var a := RefreshAttempt(c.task.refreshToken, response);
            a.Failure? ==>
              && r.0.store == Cleared
              && (forall i :: 0 <= i < |r.1| ==> r.1[i] == Fail(a.error))
              && (c.task.starter.PendingRequest? ==> !r.0.isRefreshing && r.2 == Fail(a.error))
              && (c.task.starter.PendingRetry? ==> r.0.task == ClearingKeys(a.error) && r.2 == Clearing)
  {
    var attempt := RefreshAttempt(c.task.refreshToken, response);
    var outcome := AccessTokenOf(attempt);
    var store := StoreAfterRefresh(c.store, attempt);
    if c.task.starter.PendingRetry? && attempt.Failure? then
      (Coordinator(true, [], ClearingKeys(attempt.error), store), Resumed(c.failedQueue, outcome), Clearing)
    else
      (Coordinator(false, [], Idle, store), Resumed(c.failedQueue, outcome), Resume(c.task.starter, outcome))
  }

  /** The 401 handler's removal of the keys after a failed refresh completes: the store is cleared,
      the caller is rejected with the refresh error, and `finally` clears the flag. Callers that
      joined the queue meanwhile stay in it. */
  function OnKeysCleared(c: Coordinator): (r: (Coordinator, Step))
    requires c.task.ClearingKeys?
    ensures r.0.Valid() && !r.0.isRefreshing
    ensures r.0.store == Cleared && r.0.failedQueue == c.failedQueue
    ensures r.1 == Fail(c.task.error)
  {
    (Coordinator(false, c.failedQueue, Idle, Cleared), Fail(c.task.error))
  }

  /** The module-level state of api-client.ts, updated in place by the interceptors. */
  class ApiClient {
    var isRefreshing: bool
    var failedQueue: seq<Waiter>
    var task: Task
    const storage: Storage

    ghost function State(): Coordinator
      reads this, storage
    {
      Coordinator(isRefreshing, failedQueue, task, storage.items)
    }

    ghost predicate Valid()
      reads this, storage
    {
      State().Valid()
    }

    constructor (storage: Storage)
      ensures this.storage == storage
      ensures State() == Coordinator(false, [], Idle, storage.items) && Valid()
    {
      this.storage := storage;
      isRefreshing := false;
      failedQueue := [];
      task := Idle;
    }

    /** `processQueue`: settles every queued caller with the one outcome, in order, and empties the queue. */
    method ProcessQueue(outcome: Result<string, Error>) returns (delivered: seq<Step>)
      modifies this
      ensures delivered == Resumed(old(failedQueue), outcome)
      ensures failedQueue == []
      ensures isRefreshing == old(isRefreshing) && task == old(task)
    {
      delivered := [];
      var i := 0;
      while i < |failedQueue|
        invariant 0 <= i <= |failedQueue|
        invariant delivered == Resumed(failedQueue[..i], outcome)
      {
        delivered := delivered + [Resume(failedQueue[i], outcome)];
        i := i + 1;
      }
      assert failedQueue[..i] == failedQueue;
      failedQueue := [];
    }

    /** `refreshToken()` from the point where its read of the stored refresh token has returned
        `refreshToken`: exchanges it for new tokens and stores them; on any failure removes all five
        keys and rethrows. */
    method RefreshToken(refreshToken: Option<string>, response: RefreshResponse) returns (outcome: Result<string, Error>)
      modifies storage
      ensures storage.items == StoreAfterRefresh(old(storage.items), RefreshAttempt(refreshToken, response))
      ensures outcome == AccessTokenOf(RefreshAttempt(refreshToken, response))
    {
      var attempt: Result<TokenSet, Error>;
      if !Present(refreshToken) {
        attempt := Failure(NoRefreshToken);
      } else {
        match response
        case Issued(tokens) => attempt := Success(tokens);
        case Refused(e) => attempt := Failure(e);
      }
      match attempt
      case Success(tokens) =>
        storage.items := storage.items.(
          accessToken := Some(tokens.accessToken),
          accessTokenExpires := Some(tokens.accessTokenExpires),
          refreshToken := Some(tokens.refreshToken),
          refreshTokenExpires := Some(tokens.refreshTokenExpires));
        outcome := Success(tokens.accessToken);
      case Failure(e) =>
        storage.items := Cleared;
        outcome := Failure(e);
    }

    /** The request interceptor, resumed after its reads of the access token and its expiry returned
        `seen`. Starting a refresh calls `refreshToken()`, which reads the stored refresh token at once. */
    method InterceptRequest(config: Request, seen: TokenRead, now: int) returns (step: Step)
      requires Valid()
      modifies this
      ensures Valid()
      ensures (State(), step) == OnRequest(old(State()), config, seen, now)
    {
      if IsPublicEndpoint(config.url) {
        return Send(config);
      }
      if ShouldRefresh(seen.accessToken, seen.accessTokenExpires, now) {
        if isRefreshing {
          failedQueue := failedQueue + [PendingRequest(config)];
          return Queued;
        }
        isRefreshing := true;
        task := AwaitingRefresh(PendingRequest(config), storage.items.refreshToken);
        return Refreshing;
      }
      step := Send(WithBearer(config, seen.accessToken.value));
    }

    /** The rejection handler of the response interceptor. */
    method InterceptResponseError(status: Option<int>, config: Request) returns (step: Step)
      requires Valid()
      modifies this
      ensures Valid()
      ensures (State(), step) == OnResponseError(old(State()), status, config)
    {
      if status == Some(401) && !config.retry {
        var originalRequest := config.(retry := true);
        if IsPublicEndpoint(originalRequest.url) {
          return Fail(HttpError(status, originalRequest));
        }
        if isRefreshing {
          failedQueue := failedQueue + [PendingRetry(originalRequest)];
          return Queued;
        }
        isRefreshing := true;
        task := AwaitingRefresh(PendingRetry(originalRequest), storage.items.refreshToken);
        return Refreshing;
      }
      step := Fail(HttpError(status, config));
    }

    /** The refresh in flight settles: `refreshToken()` completes, `processQueue` resumes the queue,
        and the caller that started it continues, up to `finally` clearing the flag, or, in the 401
        handler after a failure, up to the awaited removal of the keys. */
    method SettleRefresh(response: RefreshResponse) returns (delivered: seq<Step>, resumed: Step)
      requires Valid() && task.AwaitingRefresh?
      modifies this, storage
      ensures Valid() && failedQueue == []
      ensures (State(), delivered, resumed) == OnRefreshSettled(old(State()), response)
    {
      var starter := task.starter;
      var outcome := RefreshToken(task.refreshToken, response);
      delivered := ProcessQueue(outcome);
      if starter.PendingRetry? && outcome.Failure? {
        task := ClearingKeys(outcome.error);
        resumed := Clearing;
        return;
      }
      resumed := Resume(starter, outcome);
      isRefreshing := false;
      task := Idle;
    }

    /** The 401 handler after a failed refresh, once `multiRemove` of the five keys has completed:
        it rejects with the refresh error and `finally` clears the flag. */
    method FinishClearing() returns (step: Step)
      requires task.ClearingKeys?
      modifies this, storage
      ensures Valid() && !isRefreshing
      ensures (State(), step) == OnKeysCleared(old(State()))
    {
      storage.items := Cleared;
      step := Fail(task.error);
      isRefreshing := false;
      task := Idle;
    }
  }
}

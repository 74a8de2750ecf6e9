# Authentication, token refresh and list queries of the news app, in Dafny

This project models the client-side core of a React Native news app:

- **The API client's token-refresh coordinator** (`app/lib/api-client.ts`). It has two parts:
  - The request interceptor attaches `Authorization: Bearer <token>` to every private request. When the stored access token is missing, or expires in less than one minute, it starts a refresh.
  - The response interceptor turns a first 401 into a refresh followed by one retry of the request.

  While a refresh is in flight, every other caller of the interceptors that needs a token waits in a queue. When the refresh settles, `processQueue` releases all waiters with the same token or the same error. On a failed refresh all five authentication keys are removed from storage.
- **The authentication context** (`app/contexts/AuthContext.tsx`): `isAuthenticated`, `login`, `updateUserInContext`, `getAccessToken`, `getRefreshToken`, `logout`, and the start-up `checkAuthStatus` that restores or clears a stored session.
- **The articles service** (`services/articlesService.ts`):
  - the list URL, with its `page`/`limit`/`status` defaults and the optional encoded `categories` and `title` filters;
  - the infinite query's next-page rule;
  - the category list with "All" first and duplicates removed.
- **The questions service** (`services/questionsService.ts`):
  - the two list URLs, whose author id is not encoded;
  - the body of a new question;
  - the infinite query's next-page rule, with page size 10 and "enabled iff the user id is non-empty".
- **The header's `getInitials`** (`app/components/ui/Header.tsx`).

How the source's constructs are modelled:

- **The coordinator's state.** A `Coordinator` record holds these parts:
  - `isRefreshing` and `failedQueue`;
  - the task of the interceptor that set the flag: it awaits `refreshToken()` with the refresh token that call read, or, after a failed refresh started by a 401, it awaits the removal of the keys;
  - the credential store.
- **The event loop.** Each stretch of an interceptor between two awaits is a pure transition on that record:
  - `OnRequest` runs once the two storage reads have returned, so other transitions may come between those reads and the decision;
  - `OnResponseError` handles a failed response;
  - `OnRefreshSettled` runs when the refresh settles;
  - `OnKeysCleared` runs when the 401 handler's removal of the keys completes.

  Any interleaving of these transitions is a possible run. Two results follow from this. A request that read a stale token before a refresh settled starts a second refresh after it. A request that queues while the keys are being removed is left waiting once the flag clears.
- **The `ApiClient` class.** It holds the same fields and updates them in place. Each of its methods is proved to perform exactly the corresponding transition. The lemmas about bursts of requests are stated on the transitions.
- **AsyncStorage.** It is a `Storage` object holding one `Store` record of the five keys. The `ApiClient` and the `AuthProvider` share this object.
- **Outside outcomes.** Network responses (the refresh endpoint, `refreshAccessTokenApi`), storage failures and the clock are parameters.
- **Strings.** `trim`, `split(" ")`, `filter(Boolean)`, `includes`, `encodeURIComponent` and the decimal rendering of numbers in template literals are defined on `seq<char>` in `JsText` and `Uri`. `Uri` also gives the query strings the URLs are made of a reader (`Parse`) and proves that rendering then parsing returns the parameters.

## Model

| member | source | states |
|---|---|---|
| ApiClient.OnRequest | app/lib/api-client.ts:82-150 | Public endpoints pass untouched. Otherwise a token read as stale (missing, or expiring within a minute) starts a refresh when none is in flight, or appends the caller to the queue when one is. Starting a refresh reads the stored refresh token. A token read as fresh is attached as Bearer. The store is never changed and the invariant is kept. |
| ApiClient.OnResponseError | app/lib/api-client.ts:153-232 | Only a 401 on a request not yet marked `_retry` is handled, and the request is marked first. On a public endpoint the 401 is rejected; otherwise it waits for or starts a refresh. Every other error is rejected unchanged. The invariant is kept. |
| ApiClient.IsPublicEndpoint | app/lib/api-client.ts:85-88 | A URL is public if and only if one of `/auth/login`, `/auth/register` and `/auth/refresh` occurs in it at some position. A request without a URL is not public. |
| ApiClient.IsTokenExpired | app/lib/api-client.ts:36-41 | A token counts as expired once the time is later than one minute before its expiry, so a token already past its expiry is expired. |
| ApiClient.Resumed | app/lib/api-client.ts:23-33 | One outcome for the whole queue. On an error, every waiter is rejected with that error. On a token, every waiter's own request carries that token as Bearer: it is sent for a waiting request and dispatched again for a waiting 401 retry. |
| ApiClient.OnRefreshSettled | app/lib/api-client.ts:127-227 | For any queue: the queue is emptied, every queued caller gets the one outcome, and the refresh uses the token read when it started. On success the store gets the new tokens, every caller including the starter is released with the new access token, and the coordinator is idle. On failure the store is cleared and every queued caller is rejected with the error. A request starter is rejected too and the coordinator is idle. A 401 starter goes on to remove the keys with the flag still set. |
| ApiClient.OnKeysCleared | app/lib/api-client.ts:210-227 | Once the 401 handler's removal of the keys completes, the store is cleared, the caller is rejected with the refresh error and the flag is cleared. Callers that queued meanwhile stay in the queue. |
| ApiClient.ApiClient.constructor | app/lib/api-client.ts:16-21 | The client starts with no refresh in flight and an empty queue. |
| ApiClient.ApiClient.ProcessQueue | app/lib/api-client.ts:23-33 | A loop over the queue. It delivers exactly the resumed queue, in order, and leaves the queue empty. |
| ApiClient.ApiClient.RefreshToken | app/lib/api-client.ts:44-79 | Given the refresh token read at the start: without one the call fails. On success the four token keys are written into the current store and the new access token is returned. On any failure all five keys are removed and the error is rethrown. |
| ApiClient.ApiClient.InterceptRequest | app/lib/api-client.ts:82-150 | Given what the two storage reads returned, performs exactly the `OnRequest` transition on the fields, keeping the invariant. A started refresh takes the refresh token stored at that moment. |
| ApiClient.ApiClient.InterceptResponseError | app/lib/api-client.ts:153-232 | Performs exactly the `OnResponseError` transition, keeping the invariant. |
| ApiClient.ApiClient.SettleRefresh | app/lib/api-client.ts:127-227 | Runs the rest of `refreshToken()`, then `processQueue`, then the starter's continuation. The continuation goes up to `finally` clearing the flag, or, after a failed 401 refresh, up to the awaited removal of the keys. Together these perform exactly `OnRefreshSettled`. |
| ApiClient.ApiClient.FinishClearing | app/lib/api-client.ts:215-227 | Performs exactly `OnKeysCleared`: the five keys are removed, the caller is rejected and `finally` clears the flag. |
| RefreshProperties.RunRequests | app/lib/api-client.ts:82-150 | A run of requests keeps the invariant and never touches the store. A refresh already in flight stays the same one. When none was in flight and private requests meet a stale token, the first caller's refresh is in flight, with the refresh token stored then. |
| RefreshProperties.QueueWhileRefreshing | app/lib/api-client.ts:108-125 | While a refresh is in flight, private requests with a stale token are appended to the queue in arrival order, and nothing else changes. |
| RefreshProperties.OneRefreshPerBurst | app/lib/api-client.ts:104-141 | A burst of private requests that read a stale token and decide at once starts exactly one refresh, the first caller's. All later callers join the queue in order, after any caller already in it. |
| RefreshProperties.BurstSharesOneOutcome | app/lib/api-client.ts:23-33 | After a burst settles, every caller is sent with the same new token and the store holds the new tokens; or every caller is rejected with the same error and the store is cleared. The queue is empty and no refresh is in flight. |
| RefreshProperties.SecondRefreshAfterStaleRead | app/lib/api-client.ts:94-141 | A request whose reads returned a stale token before a refresh settled, and which decides after it has settled, starts a second refresh with whatever refresh token is now stored. |
| RefreshProperties.LogoutEndpointIsPrivate | app/lib/api-client.ts:85-88 | `/auth/logout` contains none of the public endpoints, so the logout request goes through the interceptors. |
| RefreshProperties.LogoutDuringRefreshIsUndone | app/lib/api-client.ts:44-67 | A 401 starts a refresh while the stored access token still reads as fresh. The logout request is then sent at once with that token rather than queued. If the keys are removed while the refresh is in flight and the server issues tokens, the tokens are written back into the cleared store and the failed request is resent with the new access token: the logout is undone. |
| RefreshProperties.WaiterOrphanedWhileClearing | app/lib/api-client.ts:210-227 | After a 401 refresh fails, the queue is drained while the flag stays set. A request that finds no token during the removal of the keys joins the queue. Once the flag is cleared it is the only waiter left, and no refresh is in flight. |
| RefreshProperties.PublicEndpointsBypassAuth | app/lib/api-client.ts:85-92 | Login, register and refresh requests pass untouched, whatever the reads returned. A 401 from them is rejected without a refresh. |
| RefreshProperties.RefreshEndpointIsPublic | app/lib/api-client.ts:52-54 | Any URL containing `/auth/refresh` is public, so the refresh call never waits for itself. |
| RefreshProperties.AttachedTokenIsUsable | app/lib/api-client.ts:94-145 | A private request is sent without refreshing if and only if the token read is present and has no expiry or expires at least a minute from now. Such a request carries that token. |
| RefreshProperties.ExpiryMargin | app/lib/api-client.ts:36-41 | A token expiring exactly 60000 ms from now is attached. One expiring 59999 ms from now is refreshed first. |
| RefreshProperties.OtherErrorsPassThrough | app/lib/api-client.ts:229-231 | Non-401 errors, and a 401 on an already retried request, are rejected unchanged with the state untouched. |
| RefreshProperties.RetriedAtMostOnce | app/lib/api-client.ts:162-164 | A first 401 always waits for or starts a refresh. The resent request carries `_retry`, and a second 401 on it is rejected without another refresh. |
| Session.DecideRestore | app/contexts/AuthContext.tsx:183-207 | The session is kept if and only if a user is stored and the refresh token is present and not past its expiry (a missing expiry counts as past). The access token is refreshed if and only if it is present but past or missing its expiry. |
| Session.IsAuthenticated | app/contexts/AuthContext.tsx:44 | `!!user?.id`: false without a user. With a user, true if and only if its id is non-empty. |
| Session.AuthProvider.constructor | app/contexts/AuthContext.tsx:41-42 | No user, and loading. |
| Session.AuthProvider.Login | app/contexts/AuthContext.tsx:46-68 | On success the user and the four token keys are stored and the user is set. A failed write is rethrown: after the user write it leaves the store unchanged; after the token write it leaves only the user stored. In both cases the in-memory user is unchanged. |
| Session.AuthProvider.UpdateUserInContext | app/contexts/AuthContext.tsx:71-90 | With no user it fails and changes nothing. Otherwise the in-memory user becomes the merge of the user and the patch. The merge is written under `user` only; when that write fails the error is "update failed" and the store is unchanged. |
| Session.AuthProvider.GetAccessToken | app/contexts/AuthContext.tsx:93-101 | Returns a token if and only if the read succeeds and a non-empty token is stored, and then it is the trimmed stored token. |
| Session.AuthProvider.GetRefreshToken | app/contexts/AuthContext.tsx:104-123 | Answers true if and only if a refresh token is stored, the server grants a token and the write succeeds. Then only the access token and its expiry change. Otherwise it logs out. |
| Session.AuthProvider.Logout | app/contexts/AuthContext.tsx:126-160 | The user is cleared. The five keys are removed unless the removal throws. |
| Session.AuthProvider.CheckAuthStatus | app/contexts/AuthContext.tsx:163-241 | Loading ends on every path. A failed read clears the user. Otherwise the method follows `DecideRestore`: it restores the stored user (refreshing a stale access token), or it removes the keys and clears the user. |
| Session.LoginThenRestore | app/contexts/AuthContext.tsx:44-68 | A logged-in session with an unexpired refresh token is restored at start-up. The restored user is authenticated if and only if its id is non-empty. |
| Session.ClearedStoreIsNotRestored | app/contexts/AuthContext.tsx:207-229 | After the keys are removed, nothing is restored. |
| Session.MergeLaws | app/contexts/AuthContext.tsx:77 | An empty patch changes nothing, and a patch applied twice acts like one. |
| Articles.ArticlesQueryShape | services/articlesService.ts:31-39 | The query starts with page, limit and status (defaults 0 and 10, status PUBLISHED). It has a `categories` key if and only if a category other than "All" is given, and a `title` key if and only if the search is not blank. Each filter holds the encoded, untrimmed text. |
| Articles.FetchArticlesUrl | services/articlesService.ts:31-39 | Builds the URL step by step with `+=`. The result is `/articles?` followed by the rendered query above. |
| Articles.ArticlesQueryParses | services/articlesService.ts:34-39 | Parsing the URL's query string gives back exactly the listed parameters: encoded filters cannot inject parameters. |
| Articles.NextArticlesPage | services/articlesService.ts:94-105 | The next page is requested if and only if fewer pages are loaded than the server's page count, and it is the number of pages loaded. |
| Articles.ArticlePagesAreRange | services/articlesService.ts:94-106 | Starting at page 0, the infinite query requests pages 0 to pageCount-1, once each and in order. It requests page 0 even when the count is 0. |
| Articles.DistinctKeepsFirstOccurrences | services/articlesService.ts:115 | The Set keeps each category name at its first occurrence, in order. |
| Articles.UniqueCategories | services/articlesService.ts:111-116 | "All" comes first, followed by every category name exactly once in order of first occurrence. The length is 1 plus the number of distinct names. |
| Uri.EncodedHasNoDelimiters | services/articlesService.ts:35 | `encodeURIComponent` output never contains `&` or `=`. |
| Uri.ParseRender | services/articlesService.ts:33-39 | Rendering then parsing a list of well-formed parameters gives the list back. |
| Questions.QuestionsByUserUrl | services/questionsService.ts:26-27 | The URL is `/questions?` followed by authorId, page and limit (defaults 0 and 10), with the author id as given. |
| Questions.InfiniteQuestionsUrl | services/questionsService.ts:37-46 | The same URL as the plain list, with the page taken from `pageParam` (default 0). |
| Questions.InfiniteQueryPageUrl | services/questionsService.ts:91-105 | Each page of the infinite query uses page size 10 unless another is given. |
| Questions.QuestionsQueryParses | services/questionsService.ts:27 | An author id without `&` is read back whole. The query is enabled if and only if the author id read back is non-empty. |
| Questions.UnencodedUserIdAddsParameter | services/questionsService.ts:46 | An author id containing `&k=v` adds a parameter k to the request, because the author id is not encoded. |
| Questions.PageNumbersReadBack | services/questionsService.ts:27 | For an author id without `&`, the page and the limit read back are the decimal renderings of the numbers asked for, and those renderings denote them. |
| Questions.AskQuestionBody | services/questionsService.ts:58-62 | The body has exactly the keys `question` and `authorId`. |
| Questions.AskQuestionBodyRoundTrip | services/questionsService.ts:58-62 | Reading the body back gives the question and the user id. |
| Questions.NextQuestionsPage | services/questionsService.ts:106-109 | The next page is requested if and only if the last page held exactly `pageSize` questions (a missing list counts as 0). The page requested is the number of pages loaded. |
| Questions.ZeroPageSizeNeverStops | services/questionsService.ts:106-109 | With page size 0 every page, even an empty one, counts as full, so the query always offers another page. |
| Questions.PagesLoadedFromFill | services/questionsService.ts:106-110 | From any page on, the infinite query loads full pages until the first partial (possibly empty) page. |
| Questions.InfiniteQueryLoadsEverything | services/questionsService.ts:106-110 | Starting at page 0, the query loads total/size + 1 pages: full pages followed by one page holding the remainder. The counts add up to the total, so when the total is a multiple of the size, one extra empty page is fetched. |
| Header.GetInitials | app/components/ui/Header.tsx:17-22 | At most two characters. The result is empty if and only if the name is missing or empty. |
| Header.InitialsFailOnBlankName | app/components/ui/Header.tsx:19-21 | The call throws if and only if the name is non-empty and all white space. |
| Header.FirstInitial | app/components/ui/Header.tsx:19-20 | For a name with a non-white-space character, the first initial is that first character, upper-cased. |
| Header.InitialsOfWords | app/components/ui/Header.tsx:19-21 | For words joined by single spaces, the initials are the first letters of the first word and (if any) the second word, upper-cased. Later words are ignored. |
| Header.RepeatedSpaceIgnored | app/components/ui/Header.tsx:19 | A double space between words splits like a single one. |
| Header.SurroundingSpaceIgnored | app/components/ui/Header.tsx:19 | Spaces around the name do not change the initials. |

## Left out

- Promises and axios are not modelled. The refresh response, the retried request's own response and the values the interceptor's storage reads return are parameters.
- The awaits inside `refreshToken()` are not separate transitions. These are the POST at line 52 and the writes at lines 60 and 70. The whole of `refreshToken()` after its read at line 46 completes in one transition, `OnRefreshSettled`. Callers that arrive during those awaits see the flag set and join the queue, as in the code.
- The order in which waiters are released follows the code: `processQueue` releases the queued callers first, then the caller that started the refresh continues. The order is not "every caller including the starter, in arrival order".
- The read at line 46 is taken as returning the refresh token stored when `refreshToken()` is called. That call is made in the same stretch that sets the flag, and AsyncStorage serves the operations in the order they are issued.
- Storage failures inside the API client (`AsyncStorage` calls that throw during an interceptor) are not modelled. Only the authentication context takes storage outcomes as parameters.
- Header objects and request aliasing: a request is a value (URL, Authorization header, `_retry` flag), not a shared mutable object.
- Dates are integers in milliseconds. ISO parsing, and a stored expiry that parses to NaN, are not modelled. A missing expiry and an empty expiry are both `None`.
- A rejection from the request interceptor (`No refresh token available`, lines 121 and 138 of `app/lib/api-client.ts`) is modelled as that error reaching the caller. In the code such an error also passes through the response handler, which reads `error.config.url` at line 159. An error without a config makes that read throw a `TypeError`, so the callers actually see a `TypeError`, not the original error.
- Session.AuthProvider: each operation is one atomic step. Interceptor transitions that run between its awaits are not modelled, for example the 401 handler removing the keys between the two writes of `login`.
- `getRefreshToken` (`app/contexts/AuthContext.tsx:104-118`) refreshes through `refreshAccessTokenApi` (`services/authService.ts:110`), which posts to `/auth/refresh` itself. That refresh does not set `isRefreshing` or use `failedQueue`, so it can run beside a refresh of the interceptor; the model does not capture this.
- `encodeURIComponent` throws a `URIError` on a lone surrogate. Characters here are Unicode scalar values, so that error is not modelled.
- JSON encoding of the stored user, and a stored user that fails to parse, are not modelled.
- `logoutApi` is not modelled. Its request passes through the interceptors, and its failure is swallowed, so logout proceeds in every case.
- `saveUserPreferences`, the shared-data bridge and the Android widget are not modelled. They are native calls that the core only forwards to.
- Rendering, navigation and the React Query cache are not modelled; only the query functions and paging callbacks are.
- Session.AuthProvider.UpdateUserInContext: patch fields explicitly set to `undefined` are treated as absent. In JavaScript they would overwrite the field with `undefined`.
- Header.GetInitials: `toUpperCase` is modelled on ASCII letters only. Characters are Unicode scalar values, not UTF-16 code units.
- Articles.NextArticlesPage: the server's `pageCount` is taken as the count for every page loaded.
- Questions.InfiniteQueryLoadsEverything: the server is modelled as holding a fixed number of questions while the pages are loaded.
- Questions.PagesLoadedFromFill and Questions.InfiniteQueryLoadsEverything: the page size is at least 1. With page size 0 the query never stops offering pages (`ZeroPageSizeNeverStops`). The only caller passes 10 (`app/(tabs)/profile/questions.tsx`), and `questions.tsx` is not part of this model.

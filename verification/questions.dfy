/** The questions service: the list URLs, the body of a new question, and the infinite query's
    paging rule. */
module Questions {
  import opened Wrappers
  import opened JsText
  import opened Uri

  /** `QuestionsByUserParams`: the author, and an optional page and page size. */
  datatype QuestionsByUserParams = QuestionsByUserParams(userId: string, page: Option<int>, limit: Option<int>)

  /** `AskQuestionPayload`. */
  datatype AskQuestionPayload = AskQuestionPayload(question: string, userId: string)

  /** The page size of the infinite query when none is given. */
  const DefaultPageSize: int := 10

  /** The parameters of a questions list request, in order; the author id is written as it is. */
  function QuestionsQuery(userId: string, page: int, limit: int): seq<(string, string)> {
    [("authorId", userId), ("page", IntToString(page)), ("limit", IntToString(limit))]
  }

  /** `fetchQuestionsByUserId`'s URL: page 0 and limit 10 unless given. */
  function QuestionsByUserUrl(params: QuestionsByUserParams): (url: string)
    ensures url == "/questions?" + Render(QuestionsQuery(params.userId, params.page.GetOr(0), params.limit.GetOr(10)))
  {
    var page := params.page.GetOr(0);
    var limit := params.limit.GetOr(10);
    var url := "/questions?authorId=" + params.userId + "&page=" + IntToString(page) + "&limit=" + IntToString(limit);
    assert url == "/questions?" + Render(QuestionsQuery(params.userId, page, limit)) by {
      QuestionsQueryRendering(params.userId, IntToString(page), IntToString(limit));
    }
    url
  }

  lemma QuestionsQueryRendering(userId: string, page: string, limit: string)
    ensures "/questions?authorId=" + userId + "&page=" + page + "&limit=" + limit
         == "/questions?" + Render([("authorId", userId), ("page", page), ("limit", limit)])
  {
    var q := [("authorId", userId)];
    assert Render(q) == Pair(q[0]);
    RenderSnoc(q, ("page", page));
    RenderSnoc(q + [("page", page)], ("limit", limit));
    assert q + [("page", page)] + [("limit", limit)] == [("authorId", userId), ("page", page), ("limit", limit)];
  }

  /** `fetchQuestionsByUserIdInfinite`'s URL: the same URL as the plain list, with the page taken
      from the page parameter (0 unless given). */
  function InfiniteQuestionsUrl(userId: string, pageParam: Option<int>, limit: Option<int>): (url: string)
    ensures url == QuestionsByUserUrl(QuestionsByUserParams(userId, pageParam, limit))
    ensures url == "/questions?" + Render(QuestionsQuery(userId, pageParam.GetOr(0), limit.GetOr(10)))
  {
    var url := "/questions?authorId=" + userId + "&page=" + IntToString(pageParam.GetOr(0)) + "&limit=" + IntToString(limit.GetOr(10));
    assert url == "/questions?" + Render(QuestionsQuery(userId, pageParam.GetOr(0), limit.GetOr(10))) by {
      QuestionsQueryRendering(userId, IntToString(pageParam.GetOr(0)), IntToString(limit.GetOr(10)));
    }
    url
  }

  /** The URL of page `pageParam` of `useInfiniteQuestionsByUserId`, whose page size is 10 unless
      given. */
  function InfiniteQueryPageUrl(userId: string, pageSize: Option<int>, pageParam: Option<int>): (url: string)
    ensures url == "/questions?" + Render(QuestionsQuery(userId, pageParam.GetOr(0), pageSize.GetOr(DefaultPageSize)))
  {
    InfiniteQuestionsUrl(userId, pageParam, Some(pageSize.GetOr(DefaultPageSize)))
  }

  /** `enabled: !!userId`: both list queries run only for a non-empty author id. */
  predicate QueriesEnabled(userId: string) {
    userId != ""
  }

  /** A request the server can read back: an author id without `&` is read back whole, together
      with the page and the limit; so a query runs exactly when the server will filter on a
      non-empty author. */
  lemma QuestionsQueryParses(userId: string, page: int, limit: int)
    requires '&' !in userId
    ensures Parse(Render(QuestionsQuery(userId, page, limit))) == QuestionsQuery(userId, page, limit)
    ensures QueriesEnabled(userId) <==> Parse(Render(QuestionsQuery(userId, page, limit)))[0].1 != ""
  {
    IntToStringWellFormed("page", page);
    IntToStringWellFormed("limit", limit);
    assert AllWellFormed(QuestionsQuery(userId, page, limit));
    ParseRender(QuestionsQuery(userId, page, limit));
  }

  /** The page and the limit the server reads back are the decimal renderings of the numbers asked
      for, and they denote those numbers. */
  lemma PageNumbersReadBack(userId: string, page: nat, limit: nat)
    requires '&' !in userId
    ensures Parse(Render(QuestionsQuery(userId, page, limit)))
         == [("authorId", userId), ("page", NatToString(page)), ("limit", NatToString(limit))]
    ensures DecimalValue(NatToString(page)) == page && DecimalValue(NatToString(limit)) == limit
  {
    QuestionsQueryParses(userId, page, limit);
    NatToStringRoundTrip(page);
    NatToStringRoundTrip(limit);
  }

  /** The author id is not encoded: one holding `&k=v` adds the parameter k of its own to the
      request, between the author and the page. */
  lemma UnencodedUserIdAddsParameter(a: string, k: string, v: string, page: int, limit: int)
    requires '&' !in a && '&' !in k && '=' !in k && '&' !in v
    ensures Parse(Render(QuestionsQuery(a + "&" + k + "=" + v, page, limit)))
         == [("authorId", a), (k, v), ("page", IntToString(page)), ("limit", IntToString(limit))]
  {
    var p, l := ("page", IntToString(page)), ("limit", IntToString(limit));
    var injected := [("authorId", a), (k, v), p, l];
    assert Render(QuestionsQuery(a + "&" + k + "=" + v, page, limit)) == Render(injected) by {
      InjectedRendering(a, k, v, p, l);
    }
    IntToStringWellFormed("page", page);
    IntToStringWellFormed("limit", limit);
    assert AllWellFormed(injected);
    ParseRender(injected);
  }

  lemma InjectedRendering(a: string, k: string, v: string, p: (string, string), l: (string, string))
    ensures Render([("authorId", a + "&" + k + "=" + v), p, l]) == Render([("authorId", a), (k, v), p, l])
  {
    var author := ("authorId", a + "&" + k + "=" + v);
    assert Render([("authorId", a), (k, v)]) == Render([author]) by {
      RenderSnoc([("authorId", a)], (k, v));
      assert [("authorId", a)] + [(k, v)] == [("authorId", a), (k, v)];
      assert Pair(("authorId", a)) + "&" + Pair((k, v)) == Pair(author);
    }
    RenderSameTail([author], [("authorId", a), (k, v)], p, l);
    assert [author] + [p, l] == [author, p, l];
    assert [("authorId", a), (k, v)] + [p, l] == [("authorId", a), (k, v), p, l];
  }

  /** Lists that render alike still do after the same two parameters are appended. */
  lemma RenderSameTail(x: seq<(string, string)>, y: seq<(string, string)>, p: (string, string), l: (string, string))
    requires |x| >= 1 && |y| >= 1 && Render(x) == Render(y)
    ensures Render(x + [p, l]) == Render(y + [p, l])
  {
    RenderSnoc(x, p);
    RenderSnoc(x + [p], l);
    RenderSnoc(y, p);
    RenderSnoc(y + [p], l);
    assert x + [p] + [l] == x + [p, l];
    assert y + [p] + [l] == y + [p, l];
  }

  /** `askQuestionApi`'s request body: the question and the user id, the latter under the key
      `authorId`, and nothing else. */
  function AskQuestionBody(payload: AskQuestionPayload): (body: map<string, string>)
    ensures body.Keys == {"question", "authorId"}
  {
    map["question" := payload.question, "authorId" := payload.userId]
  }

  /** How the server reads a question body: both keys must be present. */
  function ReadQuestionBody(body: map<string, string>): Option<AskQuestionPayload> {
    if "question" in body && "authorId" in body then Some(AskQuestionPayload(body["question"], body["authorId"]))
    else None
  }

  /** The body carries the payload whole: reading it back gives the question and the author. */
  lemma AskQuestionBodyRoundTrip(payload: AskQuestionPayload)
    ensures ReadQuestionBody(AskQuestionBody(payload)) == Some(payload)
  {
    var body := AskQuestionBody(payload);
    assert "question" != "authorId";
    assert body["question"] == payload.question && body["authorId"] == payload.userId;
  }

  /** `getNextPageParam`: after `pagesLoaded` pages, ask for page `pagesLoaded` exactly when the last
      page held `pageSize` questions, a missing list counting as empty. */
  function NextQuestionsPage(lastCount: Option<nat>, pagesLoaded: nat, pageSize: int): (next: Option<nat>)
    ensures next.Some? <==> lastCount.GetOr(0) == pageSize
    ensures next.Some? ==> next.value == pagesLoaded
  {
    var count := lastCount.GetOr(0);
    if count == pageSize then Some(pagesLoaded) else None
  }

  /** How many questions the server returns for page `k` of `total`, `size` per page. */
  function ServerPageCount(total: nat, size: nat, k: nat): nat {
    var served := k * size;
    if total <= served then 0
    else if total - served < size then total - served
    else size
  }

  /** With page size 0 every page counts as full, the empty ones included (`0 === 0`): the query
      always offers one more page. */
  lemma ZeroPageSizeNeverStops(total: nat, k: nat)
    ensures NextQuestionsPage(Some(ServerPageCount(total, 0, k)), k + 1, 0) == Some(k + 1)
  {
  }

  lemma MulSucc(k: nat, size: nat)
    ensures (k + 1) * size == k * size + size
  {
  }

  /** The question counts of the pages the infinite query loads, starting at page k, against a server
      holding `total` questions. */
  function PagesLoadedFrom(total: nat, size: nat, k: nat): (counts: seq<nat>)
    requires size >= 1
    requires k * size <= total
    ensures |counts| >= 1
    decreases total - k * size
  {
    var count := ServerPageCount(total, size, k);
    match NextQuestionsPage(Some(count), k + 1, size)
    case None => [count]
    case Some(next) =>
      MulSucc(k, size);
      [count] + PagesLoadedFrom(total, size, next)
  }

  /** The pages `rest` questions fill, `size` per page: full pages, then one page with what is left,
      possibly none. */
  function PageCounts(rest: nat, size: nat): seq<nat>
    requires size >= 1
    decreases rest
  {
    if rest < size then [rest] else [size] + PageCounts(rest - size, size)
  }

  /** The infinite query loads, from page k on, the pages the remaining questions fill. */
  lemma {:induction false} PagesLoadedFromFill(total: nat, size: nat, k: nat)
    requires size >= 1
    requires k * size <= total
    ensures PagesLoadedFrom(total, size, k) == PageCounts(total - k * size, size)
    decreases total - k * size
  {
    var served := k * size;
    MulSucc(k, size);
    if total - served >= size {
      assert ServerPageCount(total, size, k) == size;
      PagesLoadedFromFill(total, size, k + 1);
    } else {
      assert ServerPageCount(total, size, k) == total - served;
    }
  }

  function Sum(xs: seq<nat>): nat {
    if xs == [] then 0 else xs[0] + Sum(xs[1..])
  }

  lemma {:induction false} PageCountsSize(rest: nat, size: nat)
    requires size >= 1
    ensures |PageCounts(rest, size)| == rest / size + 1
    ensures Sum(PageCounts(rest, size)) == rest
    ensures PageCounts(rest, size)[rest / size] == rest % size
    ensures forall i :: 0 <= i < rest / size ==> PageCounts(rest, size)[i] == size
    decreases rest
  {
    var counts := PageCounts(rest, size);
    if rest < size {
      DivUnique(rest, size, 0, rest);
    } else {
      PageCountsSize(rest - size, size);
      DivStep(rest, size);
      assert counts[1..] == PageCounts(rest - size, size);
      forall i | 0 < i < rest / size ensures counts[i] == size {
        assert counts[i] == PageCounts(rest - size, size)[i - 1];
      }
    }
  }

  lemma DivStep(n: nat, d: nat)
    requires 1 <= d <= n
    ensures (n - d) / d + 1 == n / d
    ensures (n - d) % d == n % d
  {
    var q, r := (n - d) / d, (n - d) % d;
    MulSucc(q, d);
    DivUnique(n, d, q + 1, r);
  }

  /** Division is determined by quotient and remainder. */
  lemma DivUnique(n: int, d: int, q: int, r: int)
    requires d > 0 && n == q * d + r && 0 <= r < d
    ensures n / d == q && n % d == r
  {
    var q0, r0 := n / d, n % d;
    assert (q - q0) * d == r0 - r;
    if q > q0 {
      MulAtLeast(q - q0, d);
    } else if q < q0 {
      MulAtLeast(q0 - q, d);
    }
  }

  lemma {:induction false} MulAtLeast(a: int, d: int)
    requires a >= 1 && d > 0
    ensures a * d >= d
    decreases a
  {
    if a > 1 {
      MulAtLeast(a - 1, d);
      assert a * d == (a - 1) * d + d;
    }
  }

  /** Starting at page 0, the infinite query loads every question exactly once, in total / size + 1
      pages; the last page holds the remainder, so when the total is a multiple of the page size the
      last page loaded is an empty one. */
  lemma InfiniteQueryLoadsEverything(total: nat, size: nat)
    requires size >= 1
    ensures |PagesLoadedFrom(total, size, 0)| == total / size + 1
    ensures Sum(PagesLoadedFrom(total, size, 0)) == total
    ensures PagesLoadedFrom(total, size, 0)[total / size] == total % size
    ensures forall i :: 0 <= i < total / size ==> PagesLoadedFrom(total, size, 0)[i] == size
  {
    PagesLoadedFromFill(total, size, 0);
    PageCountsSize(total, size);
  }
}

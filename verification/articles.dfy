/** The articles service: the list URL, the infinite query's next-page rule, and the category list. */
module Articles {
  import opened Wrappers
  import opened JsText
  import opened Uri

  /** The optional parameters of `fetchArticles`. */
  datatype ArticlesParams = ArticlesParams(page: Option<int>, limit: Option<int>, category: Option<string>, search: Option<string>)

  /** `category && category !== "All"`. */
  predicate FiltersCategory(category: Option<string>) {
    category.Some? && category.value != "" && category.value != "All"
  }

  /** `search && search.trim() !== ""`. */
  predicate FiltersTitle(search: Option<string>) {
    search.Some? && search.value != "" && Trim(search.value) != ""
  }

  /** The keys of a parameter list, in order. */
  function Keys(params: seq<(string, string)>): (keys: seq<string>)
    ensures |keys| == |params| && forall i :: 0 <= i < |params| ==> keys[i] == params[i].0
  {
    seq(|params|, i requires 0 <= i < |params| => params[i].0)
  }

  function BaseQuery(p: ArticlesParams): seq<(string, string)> {
    [("page", IntToString(p.page.GetOr(0))), ("limit", IntToString(p.limit.GetOr(10))), ("status", "PUBLISHED")]
  }

  function CategoryQuery(category: Option<string>): seq<(string, string)> {
    if FiltersCategory(category) then [("categories", EncodeURIComponent(category.value))] else []
  }

  function TitleQuery(search: Option<string>): seq<(string, string)> {
    if FiltersTitle(search) then [("title", EncodeURIComponent(search.value))] else []
  }

  /** The query parameters of the articles list: page (0 by default), limit (10 by default) and the
      PUBLISHED status always, in that order; then the encoded category when it filters, then the
      encoded search text, untrimmed, when it is not blank. */
  function ArticlesQuery(p: ArticlesParams): seq<(string, string)> {
    BaseQuery(p) + CategoryQuery(p.category) + TitleQuery(p.search)
  }

  /** The list always starts with page, limit and status (defaults 0 and 10); it filters by category
      exactly when a category other than "All" is given, and by title exactly when the search text is
      not blank, the text being encoded untrimmed. */
  lemma ArticlesQueryShape(p: ArticlesParams)
    ensures |ArticlesQuery(p)| >= 3
    ensures ArticlesQuery(p)[..3]
         == [("page", IntToString(p.page.GetOr(0))), ("limit", IntToString(p.limit.GetOr(10))), ("status", "PUBLISHED")]
    ensures "categories" in Keys(ArticlesQuery(p)) <==> FiltersCategory(p.category)
    ensures "title" in Keys(ArticlesQuery(p)) <==> FiltersTitle(p.search)
    ensures FiltersCategory(p.category) ==> ArticlesQuery(p)[3] == ("categories", EncodeURIComponent(p.category.value))
    ensures FiltersTitle(p.search) ==> ArticlesQuery(p)[|ArticlesQuery(p)| - 1] == ("title", EncodeURIComponent(p.search.value))
  {
    ArticlesQueryParts(p);
    ArticlesQueryKeys(p);
  }

  lemma ArticlesQueryParts(p: ArticlesParams)
    ensures |ArticlesQuery(p)| >= 3
    ensures ArticlesQuery(p)[..3] == BaseQuery(p)
    ensures FiltersCategory(p.category) ==> ArticlesQuery(p)[3] == ("categories", EncodeURIComponent(p.category.value))
    ensures FiltersTitle(p.search) ==> ArticlesQuery(p)[|ArticlesQuery(p)| - 1] == ("title", EncodeURIComponent(p.search.value))
  {
    var b, c, t := BaseQuery(p), CategoryQuery(p.category), TitleQuery(p.search);
    var q := ArticlesQuery(p);
    assert q == b + c + t;
    assert q[..3] == b;
    assert FiltersCategory(p.category) ==> q[3] == c[0];
    assert FiltersTitle(p.search) ==> q[|q| - 1] == t[0];
  }

  lemma ArticlesQueryKeys(p: ArticlesParams)
    ensures "categories" in Keys(ArticlesQuery(p)) <==> FiltersCategory(p.category)
    ensures "title" in Keys(ArticlesQuery(p)) <==> FiltersTitle(p.search)
  {
    var b, c, t := BaseQuery(p), CategoryQuery(p.category), TitleQuery(p.search);
    KeysConcat(b, c);
    KeysConcat(b + c, t);
    FilterKeys(p);
    assert Keys(ArticlesQuery(p)) == ["page", "limit", "status"] + Keys(c) + Keys(t);
  }

  lemma FilterKeys(p: ArticlesParams)
    ensures Keys(BaseQuery(p)) == ["page", "limit", "status"]
    ensures Keys(CategoryQuery(p.category)) == if FiltersCategory(p.category) then ["categories"] else []
    ensures Keys(TitleQuery(p.search)) == if FiltersTitle(p.search) then ["title"] else []
  {
  }

  lemma KeysConcat(a: seq<(string, string)>, b: seq<(string, string)>)
    ensures Keys(a + b) == Keys(a) + Keys(b)
  {
  }

  /** The query string of page, limit and status, as the template literal writes it. */
  lemma BaseQueryRendering(page: string, limit: string)
    ensures "page=" + page + "&limit=" + limit + "&status=PUBLISHED"
         == Render([("page", page), ("limit", limit), ("status", "PUBLISHED")])
  {
    var q := [("page", page)];
    assert Render(q) == Pair(q[0]);
    RenderSnoc(q, ("limit", limit));
    RenderSnoc(q + [("limit", limit)], ("status", "PUBLISHED"));
    assert q + [("limit", limit)] + [("status", "PUBLISHED")] == [("page", page), ("limit", limit), ("status", "PUBLISHED")];
  }

  /** The URL `fetchArticles` requests: the articles path followed by the query above. */
  method FetchArticlesUrl(params: ArticlesParams) returns (url: string)
    ensures url == "/articles?" + Render(ArticlesQuery(params))
  {
    var page := IntToString(params.page.GetOr(0));
    var limit := IntToString(params.limit.GetOr(10));
    url := "/articles?page=" + page + "&limit=" + limit + "&status=PUBLISHED";
    assert url == "/articles?" + Render(BaseQuery(params)) by {
      BaseQueryRendering(page, limit);
    }
    ghost var base := url;
    if FiltersCategory(params.category) {
      url := url + "&categories=" + EncodeURIComponent(params.category.value);
    }
    CategoryStep(params, base, url);
    ghost var withCategory := url;
    if FiltersTitle(params.search) {
      url := url + "&title=" + EncodeURIComponent(params.search.value);
    }
    TitleStep(params, withCategory, url);
  }

  /** The category filter, when appended, is the next parameter of the query. */
  lemma CategoryStep(params: ArticlesParams, base: string, url: string)
    requires base == "/articles?" + Render(BaseQuery(params))
    requires url == if FiltersCategory(params.category)
                    then base + "&categories=" + EncodeURIComponent(params.category.value) else base
    ensures url == "/articles?" + Render(BaseQuery(params) + CategoryQuery(params.category))
  {
    var encoded := if params.category.Some? then EncodeURIComponent(params.category.value) else "";
    ExtendQueryIf(FiltersCategory(params.category), base, url, "/articles?", BaseQuery(params),
                  "&categories=", "categories", encoded);
  }

  /** The title filter, when appended, is the last parameter of the query. */
  lemma TitleStep(params: ArticlesParams, withCategory: string, url: string)
    requires withCategory == "/articles?" + Render(BaseQuery(params) + CategoryQuery(params.category))
    requires url == if FiltersTitle(params.search)
                    then withCategory + "&title=" + EncodeURIComponent(params.search.value) else withCategory
    ensures url == "/articles?" + Render(ArticlesQuery(params))
  {
    var encoded := if params.search.Some? then EncodeURIComponent(params.search.value) else "";
    ExtendQueryIf(FiltersTitle(params.search), withCategory, url, "/articles?",
                  BaseQuery(params) + CategoryQuery(params.category), "&title=", "title", encoded);
  }

  lemma ArticlesQueryWellFormed(p: ArticlesParams)
    ensures AllWellFormed(ArticlesQuery(p))
  {
    BaseQueryWellFormed(p);
    OptionalQueryWellFormed(p.category, "categories");
    OptionalQueryWellFormed(p.search, "title");
    AllWellFormedConcat(BaseQuery(p), CategoryQuery(p.category));
    AllWellFormedConcat(BaseQuery(p) + CategoryQuery(p.category), TitleQuery(p.search));
  }

  lemma BaseQueryWellFormed(p: ArticlesParams)
    ensures AllWellFormed(BaseQuery(p))
  {
    IntToStringWellFormed("page", p.page.GetOr(0));
    IntToStringWellFormed("limit", p.limit.GetOr(10));
    assert WellFormed(("status", "PUBLISHED"));
  }

  /** An encoded filter is a well-formed parameter. */
  lemma OptionalQueryWellFormed(filter: Option<string>, key: string)
    requires key == "categories" || key == "title"
    ensures filter.Some? ==> WellFormed((key, EncodeURIComponent(filter.value)))
    ensures key == "categories" ==> AllWellFormed(CategoryQuery(filter))
    ensures key == "title" ==> AllWellFormed(TitleQuery(filter))
  {
    if filter.Some? {
      EncodedHasNoDelimiters(filter.value);
    }
  }

  /** The server reads back exactly the parameters the query lists: the encoded category and title
      cannot break the query string apart. */
  lemma ArticlesQueryParses(p: ArticlesParams)
    ensures Parse(Render(ArticlesQuery(p))) == ArticlesQuery(p)
  {
    ArticlesQueryWellFormed(p);
    ParseRender(ArticlesQuery(p));
  }

  /** `getNextPageParam` of `useInfiniteArticles`, after `pagesLoaded` pages of a list whose last page
      reports `pageCount` pages: the next page index, or undefined when every page is loaded. */
  function NextArticlesPage(pageCount: int, pagesLoaded: nat): (next: Option<int>)
    ensures next.Some? <==> pagesLoaded < pageCount
    ensures next.Some? ==> next.value == pagesLoaded && 0 <= next.value < pageCount
  {
    var currentPage := pagesLoaded - 1;
    var hasMorePages := currentPage < pageCount - 1;
    if hasMorePages then Some(currentPage + 1) else None
  }

  /** `initialPageParam`. */
  const FirstArticlesPage: int := 0

  /** The pages the infinite query requests after `pagesLoaded` pages, while the server keeps
      reporting `pageCount` pages. */
  function ArticlePagesFrom(pageCount: int, pagesLoaded: nat): seq<int>
    decreases pageCount - pagesLoaded
  {
    match NextArticlesPage(pageCount, pagesLoaded)
    case None => []
    case Some(next) => [next] + ArticlePagesFrom(pageCount, pagesLoaded + 1)
  }

  /** Every page the infinite query requests, starting from the first. */
  function ArticlePages(pageCount: int): seq<int> {
    [FirstArticlesPage] + ArticlePagesFrom(pageCount, 1)
  }

  lemma {:induction false} ArticlePagesFromRange(pageCount: int, pagesLoaded: nat)
    ensures var pages := ArticlePagesFrom(pageCount, pagesLoaded);
            && |pages| == (if pagesLoaded < pageCount then pageCount - pagesLoaded else 0)
            && forall i :: 0 <= i < |pages| ==> pages[i] == pagesLoaded + i
    decreases pageCount - pagesLoaded
  {
    if pagesLoaded < pageCount {
      ArticlePagesFromRange(pageCount, pagesLoaded + 1);
    }
  }

  /** The infinite query requests pages 0, 1, ..., pageCount - 1, each once and in order, and never a
      page at or past pageCount; page 0 is requested even when the list has no page. */
  lemma ArticlePagesAreRange(pageCount: int)
    ensures var pages := ArticlePages(pageCount);
            && |pages| == (if pageCount > 1 then pageCount else 1)
            && forall i :: 0 <= i < |pages| ==> pages[i] == i
  {
    ArticlePagesFromRange(pageCount, 1);
  }

  datatype Category = Category(id: string, name: string, description: string)
  /** An article; only its categories matter to the category list. */
  datatype Article = Article(id: string, title: string, categories: seq<Category>)

  /** `articles.flatMap(a => a.categories.map(c => c.name))`. */
  function CategoryNames(articles: seq<Article>): seq<string> {
    if articles == [] then []
    else Names(articles[0].categories) + CategoryNames(articles[1..])
  }

  function Names(categories: seq<Category>): (names: seq<string>)
    ensures |names| == |categories| && forall i :: 0 <= i < |categories| ==> names[i] == categories[i].name
  {
    seq(|categories|, i requires 0 <= i < |categories| => categories[i].name)
  }

  /** The set of the elements of xs. */
  function ToSet(xs: seq<string>): (r: set<string>)
    ensures forall y :: y in r <==> y in xs
  {
    if xs == [] then {} else ToSet(xs[..|xs| - 1]) + {xs[|xs| - 1]}
  }

  /** `Array.from(new Set(xs))`: the distinct elements in order of insertion. */
  function Distinct(xs: seq<string>): (r: seq<string>)
    ensures forall y :: y in r <==> y in xs
    ensures forall i, j :: 0 <= i < j < |r| ==> r[i] != r[j]
  {
    if xs == [] then []
    else
      var d := Distinct(xs[..|xs| - 1]);
      var x := xs[|xs| - 1];
      assert xs == xs[..|xs| - 1] + [x];
      if x in d then d else d + [x]
  }

  /** The elements of xs at their first occurrence, in order: an independent statement of what a
      JavaScript Set keeps. */
  function FirstOccurrences(xs: seq<string>): seq<string> {
    if xs == [] then []
    else
      var prefix := xs[..|xs| - 1];
      FirstOccurrences(prefix) + (if xs[|xs| - 1] in prefix then [] else [xs[|xs| - 1]])
  }

  /** The Set keeps each element at its first occurrence and in that order. */
  lemma {:induction false} DistinctKeepsFirstOccurrences(xs: seq<string>)
    ensures Distinct(xs) == FirstOccurrences(xs)
  {
    if xs != [] {
      DistinctKeepsFirstOccurrences(xs[..|xs| - 1]);
    }
  }

  lemma {:induction false} DistinctLength(r: seq<string>)
    requires forall i, j :: 0 <= i < j < |r| ==> r[i] != r[j]
    ensures |ToSet(r)| == |r|
  {
    if r != [] {
      var init := r[..|r| - 1];
      DistinctLength(init);
      assert r[|r| - 1] !in init;
    }
  }

  /** `getUniqueCategories`: "All" first, then every category name of the articles exactly once, in
      order of first occurrence; a real category called "All" is kept as a second entry. */
  function UniqueCategories(articles: seq<Article>): (r: seq<string>)
    ensures |r| >= 1 && r[0] == "All"
    ensures r[1..] == FirstOccurrences(CategoryNames(articles))
    ensures forall y :: y in r[1..] <==> y in CategoryNames(articles)
    ensures |r| == 1 + |ToSet(CategoryNames(articles))|
  {
    var names := CategoryNames(articles);
    var r := ["All"] + Distinct(names);
    assert r[1..] == Distinct(names);
    DistinctKeepsFirstOccurrences(names);
    DistinctLength(Distinct(names));
    assert ToSet(Distinct(names)) == ToSet(names);
    r
  }
}

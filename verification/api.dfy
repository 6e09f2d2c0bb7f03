/** The API client (services/api.ts): the endpoint catalog as structured
    requests rendered to the source's query strings, the ok/error decision of
    `fetchFromApi` over an abstract response, and the image URL helpers.
    The network itself is a parameter: the `Transport` value says what the
    fetch delivered. */
module Api {
  import opened Wrappers
  import opened Strings
  import Uri

  const BASE_URL: string := "https://api.themoviedb.org/3"
  const IMAGE_BASE_URL: string := "https://image.tmdb.org/t/p/w500"
  const BACKDROP_BASE_URL: string := "https://image.tmdb.org/t/p/w1280"
  const LANGUAGE: string := "en-US"
  const FETCH_ERROR_PREFIX: string := "Error fetching data: "
  const GENRES_ERROR_PREFIX: string := "Error fetching genres: "

  // ---------------------------------------------------------------------
  // Requests and their rendering
  // ---------------------------------------------------------------------

  /** One `key=value` query parameter. */
  datatype Param = Param(key: string, value: string)

  /** A request path and its query parameters, in order. */
  datatype Request = Request(path: string, params: seq<Param>)

  function RenderParam(p: Param): string {
    p.key + "=" + p.value
  }

  function RenderParams(ps: seq<Param>): (parts: seq<string>)
    ensures |parts| == |ps|
    ensures forall k :: 0 <= k < |ps| ==> parts[k] == RenderParam(ps[k])
  {
    seq(|ps|, k requires 0 <= k < |ps| => RenderParam(ps[k]))
  }

  /** `k1=v1&k2=v2...`. */
  function RenderQuery(ps: seq<Param>): string
    decreases |ps|
  {
    if |ps| == 0 then ""
    else if |ps| == 1 then RenderParam(ps[0])
    else RenderParam(ps[0]) + "&" + RenderQuery(ps[1..])
  }

  /** The query string: `path?k1=v1&k2=v2...`. */
  function Render(r: Request): string {
    r.path + "?" + RenderQuery(r.params)
  }

  lemma {:induction false} RenderQueryIsJoin(ps: seq<Param>)
    ensures RenderQuery(ps) == Join(RenderParams(ps), "&")
    decreases |ps|
  {
    if |ps| > 1 {
      RenderQueryIsJoin(ps[1..]);
      assert RenderParams(ps)[1..] == RenderParams(ps[1..]);
    }
  }

  /** A request whose rendering can be read back unambiguously: the path has no
      `?`, there is at least one parameter, no key holds `&` or `=`, and no
      value holds `&`. */
  predicate WellFormed(r: Request) {
    && Free(r.path, '?')
    && |r.params| > 0
    && AllClean(r.params)
  }

  function ParseParam(s: string): Param {
    var j := FirstIndex(s, '=');
    if j == |s| then Param(s, "") else Param(s[..j], s[j + 1..])
  }

  /** Reads a query string back into its path and parameters, the way a server
      splits it: at the first `?`, then at every `&`, then at each part's first `=`. */
  function Parse(q: string): Request {
    var i := FirstIndex(q, '?');
    var parts := if i == |q| then [] else Split(q[i + 1..], '&');
    Request(q[..i], seq(|parts|, k requires 0 <= k < |parts| => ParseParam(parts[k])))
  }

  lemma RenderParamFree(p: Param)
    requires Free(p.key, '&') && Free(p.value, '&')
    ensures Free(RenderParam(p), '&')
  {
    var s := p.key + "=" + p.value;
    forall i | 0 <= i < |s| ensures s[i] != '&' {
      if i > |p.key| {
        assert s[i] == p.value[i - |p.key| - 1];
      }
    }
  }

  lemma ParseRenderParam(p: Param)
    requires Free(p.key, '=')
    ensures ParseParam(RenderParam(p)) == p
  {
    FirstIndexOfFree(p.key, '=', p.value);
    var s := p.key + "=" + p.value;
    assert s[..|p.key|] == p.key;
    assert s[|p.key| + 1..] == p.value;
  }

  /** Rendering then parsing a well-formed request gives it back. */
  lemma ParseRender(r: Request)
    requires WellFormed(r)
    ensures Parse(Render(r)) == r
  {
    var parts := RenderParams(r.params);
    var joined := Join(parts, "&");
    RenderQueryIsJoin(r.params);
    assert "&" == ['&'];
    forall k | 0 <= k < |parts| ensures Free(parts[k], '&') {
      RenderParamFree(r.params[k]);
    }
    SplitJoin(parts, '&');
    FirstIndexOfFree(r.path, '?', joined);
    var q := Render(r);
    assert q == r.path + ['?'] + joined;
    assert q[..|r.path|] == r.path;
    assert q[|r.path| + 1..] == joined;
    var parsed := Parse(q);
    assert |parsed.params| == |r.params|;
    forall k | 0 <= k < |r.params| ensures parsed.params[k] == r.params[k] {
      ParseRenderParam(r.params[k]);
    }
  }

  // ---------------------------------------------------------------------
  // The endpoint catalog
  // ---------------------------------------------------------------------

  /** The named queries of the catalog. `None` stands for an omitted argument
      that the source defaults. */
  datatype Endpoint =
    | Trending
    | NowPlaying(page: Option<int>)
    | Upcoming
    | Popular(page: Option<int>)
    | TopRated(page: Option<int>)
    | Search(text: string, page: Option<int>, includeAdult: Option<bool>)
    | GenreList
    | Details(id: int)
    | Credits(id: int)
    | Videos(id: int)
    | ByGenre(genreId: int, page: Option<int>)
    | Similar(id: int)

  function Language(): Param { Param("language", LANGUAGE) }

  function Page(page: Option<int>): Param { Param("page", IntToString(page.GetOr(1))) }

  function MoviePath(id: int, suffix: string): string { "/movie/" + IntToString(id) + suffix }

  function Keys(ps: seq<Param>): (keys: seq<string>)
    ensures |keys| == |ps|
    ensures forall k :: 0 <= k < |ps| ==> keys[k] == ps[k].key
  {
    seq(|ps|, k requires 0 <= k < |ps| => ps[k].key)
  }

  /** The structured request of each endpoint. */
  function RequestOf(e: Endpoint): (r: Request)
    ensures Language() in r.params
  {
    match e
    case Trending =>
      Request("/discover/movie", [Param("include_adult", "false"), Param("include_video", "false"),
                                  Language(), Param("page", "1"), Param("sort_by", "popularity.desc")])
    case NowPlaying(page) => Request("/movie/now_playing", [Language(), Page(page)])
    case Upcoming => Request("/movie/upcoming", [Language(), Param("page", "1")])
    case Popular(page) => Request("/movie/popular", [Language(), Page(page)])
    case TopRated(page) => Request("/movie/top_rated", [Language(), Page(page)])
    case Search(text, page, includeAdult) =>
      Request("/search/movie", [Param("query", Uri.Encode(text)),
                                Param("include_adult", BoolToString(includeAdult.GetOr(false))),
                                Language(), Page(page)])
    case GenreList => Request("/genre/movie/list", [Language()])
    case Details(id) => Request(MoviePath(id, ""), [Language()])
    case Credits(id) => Request(MoviePath(id, "/credits"), [Language()])
    case Videos(id) => Request(MoviePath(id, "/videos"), [Language()])
    case ByGenre(genreId, page) =>
      Request("/discover/movie", [Param("with_genres", IntToString(genreId)), Language(), Page(page),
                                  Param("sort_by", "popularity.desc")])
    case Similar(id) => Request(MoviePath(id, "/similar"), [Language(), Param("page", "1")])
  }

  /** The query string the source builds for an endpoint. */
  function Query(e: Endpoint): string {
    Render(RequestOf(e))
  }

  /** What each endpoint asks for: the fixed language everywhere, the caller's
      page (default 1) where the source takes one and page 1 elsewhere, the
      search parameters in the source's order, one genre id for by-genre, and
      the movie id embedded in the path. */
  lemma CatalogShape(e: Endpoint)
    ensures var r := RequestOf(e); Language() in r.params
    ensures var r := RequestOf(e); e.NowPlaying? || e.Popular? || e.TopRated? || e.ByGenre? || e.Search? ==>
      Page(e.page) in r.params
    ensures var r := RequestOf(e); e.Trending? || e.Upcoming? || e.Similar? ==> Param("page", "1") in r.params
    ensures var r := RequestOf(e); e.Trending? ==>
      Param("include_adult", "false") in r.params && Param("sort_by", "popularity.desc") in r.params
    ensures var r := RequestOf(e); e.Search? ==>
      && Keys(r.params) == ["query", "include_adult", "language", "page"]
      && r.params[0].value == Uri.Encode(e.text)
      && r.params[1].value == BoolToString(e.includeAdult.GetOr(false))
    ensures var r := RequestOf(e); e.ByGenre? ==>
      && r.path == "/discover/movie"
      && Param("with_genres", IntToString(e.genreId)) in r.params
      && Param("sort_by", "popularity.desc") in r.params
    ensures var r := RequestOf(e); e.Details? ==> r.path == MoviePath(e.id, "")
    ensures var r := RequestOf(e); e.Credits? ==> r.path == MoviePath(e.id, "/credits")
    ensures var r := RequestOf(e); e.Videos? ==> r.path == MoviePath(e.id, "/videos")
    ensures var r := RequestOf(e); e.Similar? ==> r.path == MoviePath(e.id, "/similar")
  {
  }

  lemma IntToStringFree(n: int, c: char)
    requires !IsDigit(c) && c != '-'
    ensures Free(IntToString(n), c)
  {
    var s := IntToString(n);
    forall i | 0 <= i < |s| ensures s[i] != c {
      if n < 0 && i > 0 {
        assert s[i] == s[1..][i - 1];
      }
    }
  }

  lemma EncodeFree(s: string, c: char)
    requires !Uri.Safe(c)
    ensures Free(Uri.Encode(s), c)
  {
  }

  /** A parameter that renders without ambiguity. */
  predicate Clean(p: Param) {
    Free(p.key, '&') && Free(p.key, '=') && Free(p.value, '&')
  }

  lemma NumberParamClean(key: string, n: int)
    requires Free(key, '&') && Free(key, '=')
    ensures Clean(Param(key, IntToString(n)))
  {
    IntToStringFree(n, '&');
  }

  predicate AllClean(ps: seq<Param>) {
    forall k :: 0 <= k < |ps| ==> Clean(ps[k])
  }

  /** The parameters whose text is fixed by the source. */
  lemma FixedParamsClean()
    ensures Clean(Language()) && Clean(Param("page", "1")) && Clean(Param("sort_by", "popularity.desc"))
    ensures Clean(Param("include_adult", "false")) && Clean(Param("include_video", "false"))
  {
    FixedParamsCleanA();
    FixedParamsCleanB();
  }

  lemma FixedParamsCleanA()
    ensures Clean(Language()) && Clean(Param("page", "1")) && Clean(Param("sort_by", "popularity.desc"))
  {
  }

  lemma FixedParamsCleanB()
    ensures Clean(Param("include_adult", "false")) && Clean(Param("include_video", "false"))
  {
  }

  lemma PagedParamsClean(page: Option<int>)
    ensures AllClean([Language(), Page(page)])
  {
    FixedParamsClean();
    NumberParamClean("page", page.GetOr(1));
  }

  lemma SearchParamsClean(text: string, page: Option<int>, adult: Option<bool>)
    ensures AllClean(RequestOf(Search(text, page, adult)).params)
  {
    FixedParamsClean();
    EncodeFree(text, '&');
    NumberParamClean("page", page.GetOr(1));
    assert Clean(Param("include_adult", BoolToString(adult.GetOr(false))));
  }

  lemma ByGenreParamsClean(g: int, page: Option<int>)
    ensures AllClean(RequestOf(ByGenre(g, page)).params)
  {
    FixedParamsClean();
    NumberParamClean("with_genres", g);
    NumberParamClean("page", page.GetOr(1));
  }

  lemma ParamsClean(e: Endpoint)
    ensures AllClean(RequestOf(e).params)
  {
    FixedParamsClean();
    match e {
      case Search(text, page, adult) => SearchParamsClean(text, page, adult);
      case NowPlaying(page) => PagedParamsClean(page);
      case Popular(page) => PagedParamsClean(page);
      case TopRated(page) => PagedParamsClean(page);
      case ByGenre(g, page) => ByGenreParamsClean(g, page);
      case Upcoming => PagedParamsClean(Some(1));
      case Similar(_) => PagedParamsClean(Some(1));
      case _ =>
    }
  }

  /** Every endpoint's query string reads back as exactly its structured
      request: the user's search text cannot add, drop or alter a parameter. */
  lemma QueryParses(e: Endpoint)
    ensures Parse(Query(e)) == RequestOf(e)
  {
    ParamsClean(e);
    PathFree(e);
    ParseRender(RequestOf(e));
  }

  /** The fixed paths hold no `?`. */
  lemma FixedPathsFree()
    ensures Free("/discover/movie", '?') && Free("/genre/movie/list", '?') && Free("/search/movie", '?')
    ensures Free("/movie/now_playing", '?') && Free("/movie/upcoming", '?')
    ensures Free("/movie/popular", '?') && Free("/movie/top_rated", '?')
    ensures Free("/credits", '?') && Free("/videos", '?') && Free("/similar", '?')
  {
  }

  lemma PathFree(e: Endpoint)
    ensures Free(RequestOf(e).path, '?')
  {
    FixedPathsFree();
    match e {
      case Details(id) => MoviePathFree(id, "");
      case Credits(id) => MoviePathFree(id, "/credits");
      case Videos(id) => MoviePathFree(id, "/videos");
      case Similar(id) => MoviePathFree(id, "/similar");
      case _ =>
    }
  }

  lemma MoviePathFree(id: int, suffix: string)
    requires Free(suffix, '?')
    ensures Free(MoviePath(id, suffix), '?')
  {
    var n := IntToString(id);
    IntToStringFree(id, '?');
    var p := "/movie/" + n + suffix;
    forall i | 0 <= i < |p| ensures p[i] != '?' {
      if 7 <= i < 7 + |n| {
        assert p[i] == n[i - 7];
      } else if i >= 7 + |n| {
        assert p[i] == suffix[i - 7 - |n|];
      }
    }
  }

  /** The `with_genres` value of a by-genre query reads back as the one genre
      id given: it holds no `,` or `|` list separator. */
  lemma ByGenreSingleGenre(genreId: int, page: Option<int>)
    ensures RequestOf(ByGenre(genreId, page)).params[0].key == "with_genres"
    ensures ParseInt(RequestOf(ByGenre(genreId, page)).params[0].value) == genreId
    ensures Free(RequestOf(ByGenre(genreId, page)).params[0].value, ',')
    ensures Free(RequestOf(ByGenre(genreId, page)).params[0].value, '|')
  {
    ParseIntToString(genreId);
    IntToStringFree(genreId, ',');
    IntToStringFree(genreId, '|');
  }

  // ---------------------------------------------------------------------
  // The query strings, literally as the source writes them
  // ---------------------------------------------------------------------

  /** The query strings exactly as the source's template literals spell them. */
  function SourceQuery(e: Endpoint): string {
    match e
    case Trending =>
      "/discover/movie?" + "include_adult=false" + ("&include_video=false" + ("&language=en-US" + ("&page=1"
      + "&sort_by=popularity.desc")))
    case NowPlaying(page) => "/movie/now_playing?language=en-US&page=" + IntToString(page.GetOr(1))
    case Upcoming => "/movie/upcoming?language=en-US&page=1"
    case Popular(page) => "/movie/popular?language=en-US&page=" + IntToString(page.GetOr(1))
    case TopRated(page) => "/movie/top_rated?language=en-US&page=" + IntToString(page.GetOr(1))
    case Search(text, page, includeAdult) =>
      "/search/movie?query=" + Uri.Encode(text) + "&include_adult=" + BoolToString(includeAdult.GetOr(false))
      + "&language=en-US&page=" + IntToString(page.GetOr(1))
    case GenreList => "/genre/movie/list?language=en-US"
    case Details(id) => "/movie/" + IntToString(id) + "?language=en-US"
    case Credits(id) => "/movie/" + IntToString(id) + "/credits?language=en-US"
    case Videos(id) => "/movie/" + IntToString(id) + "/videos?language=en-US"
    case ByGenre(genreId, page) =>
      "/discover/movie?with_genres=" + IntToString(genreId) + "&language=en-US&page="
      + IntToString(page.GetOr(1)) + "&sort_by=popularity.desc"
    case Similar(id) => "/movie/" + IntToString(id) + "/similar?language=en-US&page=1"
  }

  /** The structured requests render to exactly the source's query strings. */
  lemma QueryMatchesSource(e: Endpoint)
    ensures Query(e) == SourceQuery(e)
  {
    match e {
      case Trending => TrendingQuery(e);
      case NowPlaying(page) => NowPlayingQuery(page);
      case Upcoming => UpcomingQuery();
      case Popular(page) => PopularQuery(page);
      case TopRated(page) => TopRatedQuery(page);
      case Search(_, _, _) => SearchQuery(e);
      case GenreList => GenreListQuery();
      case Details(id) => DetailsQuery(id);
      case Credits(id) => CreditsQuery(id);
      case Videos(id) => VideosQuery(id);
      case ByGenre(_, _) => ByGenreQuery(e);
      case Similar(id) => SimilarQuery(id);
    }
  }

  lemma TrendingQuery(e: Endpoint)
    requires e.Trending?
    ensures Query(e) == SourceQuery(e)
  {
    var f := Param("include_adult", "false");
    var v := Param("include_video", "false");
    var p := Param("page", "1");
    var sort := Param("sort_by", "popularity.desc");
    FiveParamQuery(f, v, Language(), p, sort);
    TrendingLiterals();
    RegroupFive("/discover/movie", "?", RenderParam(f), "&", RenderParam(v), RenderParam(Language()),
                RenderParam(p), RenderParam(sort));
  }

  lemma TrendingLiterals()
    ensures "/discover/movie" + "?" == "/discover/movie?"
    ensures RenderParam(Param("include_adult", "false")) == "include_adult=false"
    ensures "&" + RenderParam(Param("include_video", "false")) == "&include_video=false"
    ensures "&" + RenderParam(Language()) == "&language=en-US"
    ensures "&" + RenderParam(Param("page", "1")) == "&page=1"
    ensures "&" + RenderParam(Param("sort_by", "popularity.desc")) == "&sort_by=popularity.desc"
  {
    TrendingHeadLiterals();
    TrendingTailLiterals();
  }

  lemma TrendingHeadLiterals()
    ensures "/discover/movie" + "?" == "/discover/movie?"
    ensures RenderParam(Param("include_adult", "false")) == "include_adult=false"
    ensures "&" + RenderParam(Param("include_video", "false")) == "&include_video=false"
  {
  }

  lemma TrendingTailLiterals()
    ensures "&" + RenderParam(Language()) == "&language=en-US"
    ensures "&" + RenderParam(Param("page", "1")) == "&page=1"
    ensures "&" + RenderParam(Param("sort_by", "popularity.desc")) == "&sort_by=popularity.desc"
  {
    SortLiteral();
  }

  lemma RegroupFive(path: string, q: string, a: string, amp: string, b: string, c: string, d: string, e: string)
    ensures path + q + (a + amp + (b + amp + (c + amp + (d + amp + e)))) ==
      (path + q) + a + ((amp + b) + ((amp + c) + ((amp + d) + (amp + e))))
  {
  }

  lemma FiveParamQuery(a: Param, b: Param, c: Param, d: Param, e: Param)
    ensures RenderQuery([a, b, c, d, e]) ==
      RenderParam(a) + "&" + (RenderParam(b) + "&" + (RenderParam(c) + "&" + (RenderParam(d) + "&" + RenderParam(e))))
  {
    FourParamQuery(b, c, d, e);
    assert [a, b, c, d, e][1..] == [b, c, d, e];
  }

  lemma PagedQuery(path: string, page: Option<int>)
    ensures Render(Request(path, [Language(), Page(page)])) ==
      path + "?language=en-US&page=" + IntToString(page.GetOr(1))
  {
    var n := IntToString(page.GetOr(1));
    assert [Language(), Page(page)][1..] == [Page(page)];
    assert RenderParam(Language()) == "language=en-US";
    assert RenderQuery([Language(), Page(page)]) == "language=en-US" + "&" + ("page" + "=" + n);
    assert "language=en-US" + "&" + ("page" + "=" + n) == "language=en-US&page=" + n;
  }

  lemma NowPlayingQuery(page: Option<int>)
    ensures Query(NowPlaying(page)) == SourceQuery(NowPlaying(page))
  {
    PagedQuery("/movie/now_playing", page);
    NowPlayingLiteral();
  }

  lemma PopularQuery(page: Option<int>)
    ensures Query(Popular(page)) == SourceQuery(Popular(page))
  {
    PagedQuery("/movie/popular", page);
    PopularLiteral();
  }

  lemma TopRatedQuery(page: Option<int>)
    ensures Query(TopRated(page)) == SourceQuery(TopRated(page))
  {
    PagedQuery("/movie/top_rated", page);
    TopRatedLiteral();
  }

  lemma UpcomingQuery()
    ensures Query(Upcoming) == SourceQuery(Upcoming)
  {
    PagedQuery("/movie/upcoming", Some(1));
    UpcomingLiteral();
    assert IntToString(1) == "1";
  }

  lemma SimilarQuery(id: int)
    ensures Query(Similar(id)) == SourceQuery(Similar(id))
  {
    var n := IntToString(id);
    PagedQuery(MoviePath(id, "/similar"), Some(1));
    assert IntToString(1) == "1";
    Regroup("/movie/", n, "/similar", "?language=en-US&page=" + "1");
    SimilarLiteral();
  }

  lemma SingleParamQuery(path: string)
    ensures Render(Request(path, [Language()])) == path + "?language=en-US"
  {
    assert RenderQuery([Language()]) == "language=en-US";
  }

  lemma GenreListQuery()
    ensures Query(GenreList) == SourceQuery(GenreList)
  {
    SingleParamQuery("/genre/movie/list");
    GenreListLiteral();
  }

  lemma DetailsQuery(id: int)
    ensures Query(Details(id)) == SourceQuery(Details(id))
  {
    SingleParamQuery(MoviePath(id, ""));
    assert "/movie/" + IntToString(id) + "" == "/movie/" + IntToString(id);
  }

  lemma CreditsQuery(id: int)
    ensures Query(Credits(id)) == SourceQuery(Credits(id))
  {
    SingleParamQuery(MoviePath(id, "/credits"));
    Regroup("/movie/", IntToString(id), "/credits", "?language=en-US");
    CreditsLiteral();
  }

  lemma VideosQuery(id: int)
    ensures Query(Videos(id)) == SourceQuery(Videos(id))
  {
    SingleParamQuery(MoviePath(id, "/videos"));
    Regroup("/movie/", IntToString(id), "/videos", "?language=en-US");
    VideosLiteral();
  }

  // Each source literal, cut where the structured request puts its path. Every
  // identity between string literals is stated once, in a lemma of its own, and
  // the Regroup lemmas only re-associate concatenations, so that no single proof
  // has to unfold many literals at once.

  lemma NowPlayingLiteral()
    ensures "/movie/now_playing" + "?language=en-US&page=" == "/movie/now_playing?language=en-US&page="
  {
  }

  lemma PopularLiteral()
    ensures "/movie/popular" + "?language=en-US&page=" == "/movie/popular?language=en-US&page="
  {
  }

  lemma TopRatedLiteral()
    ensures "/movie/top_rated" + "?language=en-US&page=" == "/movie/top_rated?language=en-US&page="
  {
  }

  lemma UpcomingLiteral()
    ensures "/movie/upcoming" + "?language=en-US&page=" + "1" == "/movie/upcoming?language=en-US&page=1"
  {
  }

  lemma SimilarLiteral()
    ensures "/similar" + ("?language=en-US&page=" + "1") == "/similar?language=en-US&page=1"
  {
  }

  lemma GenreListLiteral()
    ensures "/genre/movie/list" + "?language=en-US" == "/genre/movie/list?language=en-US"
  {
  }

  lemma CreditsLiteral()
    ensures "/credits" + "?language=en-US" == "/credits?language=en-US"
  {
  }

  lemma VideosLiteral()
    ensures "/videos" + "?language=en-US" == "/videos?language=en-US"
  {
  }

  lemma Regroup(prefix: string, n: string, suffix: string, query: string)
    ensures prefix + n + suffix + query == prefix + n + (suffix + query)
  {
  }

  lemma FourParamQuery(a: Param, b: Param, c: Param, d: Param)
    ensures RenderQuery([a, b, c, d]) ==
      RenderParam(a) + "&" + (RenderParam(b) + "&" + (RenderParam(c) + "&" + RenderParam(d)))
  {
    assert [c, d][1..] == [d];
    assert RenderQuery([c, d]) == RenderParam(c) + "&" + RenderParam(d);
    assert [b, c, d][1..] == [c, d];
    assert RenderQuery([b, c, d]) == RenderParam(b) + "&" + RenderQuery([c, d]);
    assert [a, b, c, d][1..] == [b, c, d];
  }

  lemma SearchQuery(e: Endpoint)
    requires e.Search?
    ensures Query(e) == SourceQuery(e)
  {
    var q := Uri.Encode(e.text);
    var a := BoolToString(e.includeAdult.GetOr(false));
    var n := IntToString(e.page.GetOr(1));
    FourParamQuery(Param("query", q), Param("include_adult", a), Language(), Page(e.page));
    SearchShape(q, a, n);
  }

  lemma SearchShape(q: string, a: string, n: string)
    ensures "/search/movie" + "?" + ("query" + "=" + q + "&" + ("include_adult" + "=" + a + "&"
              + ("language" + "=" + LANGUAGE + "&" + ("page" + "=" + n)))) ==
            "/search/movie?query=" + q + "&include_adult=" + a + "&language=en-US&page=" + n
  {
    RegroupFour("/search/movie", "?", "query", "=", q, "&", "include_adult", a, "language", LANGUAGE, "page", n);
    PrefixLiterals();
    LanguagePageLiteral();
  }

  /** The literal runs shared by the search and by-genre query strings. */
  lemma LanguagePageLiteral()
    ensures "&" + "language" + "=" + LANGUAGE + "&" + "page" + "=" == "&language=en-US&page="
  {
  }

  lemma SortLiteral()
    ensures "&" + ("sort_by" + "=" + "popularity.desc") == "&sort_by=popularity.desc"
  {
  }

  lemma PrefixLiterals()
    ensures "/search/movie" + "?" + "query" + "=" == "/search/movie?query="
    ensures "&" + "include_adult" + "=" == "&include_adult="
    ensures "/discover/movie" + "?" + "with_genres" + "=" == "/discover/movie?with_genres="
  {
  }

  lemma RegroupFour(path: string, q: string, k1: string, eq: string, v1: string, amp: string, k2: string,
                    v2: string, k3: string, v3: string, k4: string, v4: string)
    ensures path + q + (k1 + eq + v1 + amp + (k2 + eq + v2 + amp + (k3 + eq + v3 + amp + (k4 + eq + v4)))) ==
      (path + q + k1 + eq) + v1 + (amp + k2 + eq) + v2 + (amp + k3 + eq + v3 + amp + k4 + eq) + v4
  {
  }

  lemma ByGenreQuery(e: Endpoint)
    requires e.ByGenre?
    ensures Query(e) == SourceQuery(e)
  {
    var g := IntToString(e.genreId);
    var n := IntToString(e.page.GetOr(1));
    FourParamQuery(Param("with_genres", g), Language(), Page(e.page), Param("sort_by", "popularity.desc"));
    ByGenreShape(g, n);
  }

  lemma ByGenreShape(g: string, n: string)
    ensures "/discover/movie" + "?" + ("with_genres" + "=" + g + "&" + ("language" + "=" + LANGUAGE + "&"
              + ("page" + "=" + n + "&" + ("sort_by" + "=" + "popularity.desc")))) ==
            "/discover/movie?with_genres=" + g + "&language=en-US&page=" + n + "&sort_by=popularity.desc"
  {
    RegroupByGenre("/discover/movie", "?", "with_genres", "=", g, "&", "language", LANGUAGE, "page", n,
                   "sort_by", "popularity.desc");
    PrefixLiterals();
    LanguagePageLiteral();
    SortLiteral();
  }

  lemma RegroupByGenre(path: string, q: string, k1: string, eq: string, v1: string, amp: string, k2: string,
                       v2: string, k3: string, v3: string, k4: string, v4: string)
    ensures path + q + (k1 + eq + v1 + amp + (k2 + eq + v2 + amp + (k3 + eq + v3 + amp + (k4 + eq + v4)))) ==
      (path + q + k1 + eq) + v1 + (amp + k2 + eq + v2 + amp + k3 + eq) + v3 + (amp + (k4 + eq + v4))
  {
  }

  // ---------------------------------------------------------------------
  // Fetching
  // ---------------------------------------------------------------------

  /** What the HTTP exchange delivered: a response (status flag, status text
      and the outcome of parsing the body as JSON), or a transport failure. */
  datatype Response<T> = Response(ok: bool, statusText: string, body: Result<T, string>)
  datatype Transport<T> = Delivered(response: Response<T>) | Unreachable(reason: string)

  /** A thrown error: the wrapper's own `Error(message)` on a non-ok status, or
      an error from the transport or the body parse, re-thrown unchanged. */
  datatype ApiError = RequestFailed(message: string) | Rethrown(reason: string)

  /** The URL requested and what the call resolves or rejects with. */
  datatype Exchange<T> = Exchange(url: string, result: Result<T, ApiError>)

  /** The common decision of `fetchFromApi` and `getGenres`: a non-ok status
      rejects with `prefix + statusText`, transport and body failures are
      re-thrown, an ok response resolves with its parsed body. */
  function Settle<T>(prefix: string, transport: Transport<T>): (r: Result<T, ApiError>)
    ensures r.Ok? <==> transport.Delivered? && transport.response.ok && transport.response.body.Ok?
    ensures r.Ok? ==> r.value == transport.response.body.value
    ensures transport.Delivered? && !transport.response.ok ==>
      r == Err(RequestFailed(prefix + transport.response.statusText))
    ensures transport.Unreachable? ==> r == Err(Rethrown(transport.reason))
    ensures transport.Delivered? && transport.response.ok && transport.response.body.Err? ==>
      r == Err(Rethrown(transport.response.body.error))
  {
    match transport
    case Unreachable(reason) => Err(Rethrown(reason))
    case Delivered(response) =>
      if !response.ok then Err(RequestFailed(prefix + response.statusText))
      else match response.body
        case Ok(data) => Ok(data)
        case Err(reason) => Err(Rethrown(reason))
  }

  /** `fetchFromApi({query})`. */
  function FetchFromApi<T>(query: string, transport: Transport<T>): (x: Exchange<T>)
    ensures x.url == BASE_URL + query
    ensures x.result.Ok? <==> transport.Delivered? && transport.response.ok && transport.response.body.Ok?
    ensures transport.Delivered? && !transport.response.ok ==>
      x.result == Err(RequestFailed(FETCH_ERROR_PREFIX + transport.response.statusText))
    ensures x.result.Ok? ==> x.result.value == transport.response.body.value
    ensures transport.Unreachable? ==> x.result == Err(Rethrown(transport.reason))
    ensures transport.Delivered? && transport.response.ok && transport.response.body.Err? ==>
      x.result == Err(Rethrown(transport.response.body.error))
  {
    Exchange(BASE_URL + query, Settle(FETCH_ERROR_PREFIX, transport))
  }

  /** `getGenres()`: its own fetch of the genre list, with its own error text. */
  function GetGenres<T>(transport: Transport<T>): (x: Exchange<T>)
    ensures x.url == BASE_URL + "/genre/movie/list?language=en-US"
    ensures x.result.Ok? <==> transport.Delivered? && transport.response.ok && transport.response.body.Ok?
    ensures transport.Delivered? && !transport.response.ok ==>
      x.result == Err(RequestFailed(GENRES_ERROR_PREFIX + transport.response.statusText))
    ensures x.result.Ok? ==> x.result.value == transport.response.body.value
    ensures transport.Unreachable? ==> x.result == Err(Rethrown(transport.reason))
    ensures transport.Delivered? && transport.response.ok && transport.response.body.Err? ==>
      x.result == Err(Rethrown(transport.response.body.error))
  {
    Exchange(BASE_URL + "/genre/movie/list?language=en-US", Settle(GENRES_ERROR_PREFIX, transport))
  }

  /** Calling an endpoint of the catalog. */
  function Call<T>(e: Endpoint, transport: Transport<T>): (x: Exchange<T>)
    ensures x.url == BASE_URL + Query(e)
    ensures x.result.Ok? <==> transport.Delivered? && transport.response.ok && transport.response.body.Ok?
    ensures transport.Delivered? && !transport.response.ok ==>
      var prefix := if e.GenreList? then GENRES_ERROR_PREFIX else FETCH_ERROR_PREFIX;
      x.result == Err(RequestFailed(prefix + transport.response.statusText))
    ensures x.result.Ok? ==> x.result.value == transport.response.body.value
    ensures transport.Unreachable? ==> x.result == Err(Rethrown(transport.reason))
    ensures transport.Delivered? && transport.response.ok && transport.response.body.Err? ==>
      x.result == Err(Rethrown(transport.response.body.error))
  {
    if e.GenreList? then GetGenres(transport) else FetchFromApi(Query(e), transport)
  }

  /** `getGenres` is `fetchFromApi` of the genre-list query in all but the
      text of its own status error: the same URL, the same resolved body, the
      same re-thrown errors. */
  lemma GenresAgreesWithFetch<T>(transport: Transport<T>)
    ensures GetGenres(transport).url == FetchFromApi(Query(GenreList), transport).url
    ensures GetGenres(transport).result.Ok? <==> FetchFromApi(Query(GenreList), transport).result.Ok?
    ensures !(transport.Delivered? && !transport.response.ok) ==>
      GetGenres(transport).result == FetchFromApi(Query(GenreList), transport).result
    ensures transport.Delivered? && !transport.response.ok ==>
      GetGenres(transport).result.error.message[|GENRES_ERROR_PREFIX|..] ==
      FetchFromApi(Query(GenreList), transport).result.error.message[|FETCH_ERROR_PREFIX|..]
  {
    GenreListQuery();
  }

  /** The error message of a failed status carries the status text verbatim
      after the prefix, for either wrapper. */
  lemma StatusTextRecoverable<T>(e: Endpoint, response: Response<T>)
    requires !response.ok
    ensures Call(e, Delivered(response)).result.Err?
    ensures Call(e, Delivered(response)).result.error.RequestFailed?
    ensures var m := Call(e, Delivered(response)).result.error.message;
      |m| >= |FETCH_ERROR_PREFIX| && m[|m| - |response.statusText|..] == response.statusText
  {
  }

  // ---------------------------------------------------------------------
  // Image URLs
  // ---------------------------------------------------------------------

  /** `getImageUrl(path)`: no URL for an empty path, else the w500 base and the path. */
  function GetImageUrl(path: string): (url: Option<string>)
    ensures url.None? <==> path == ""
    ensures url.Some? ==> |url.value| == |IMAGE_BASE_URL| + |path|
    ensures url.Some? ==> url.value[..|IMAGE_BASE_URL|] == IMAGE_BASE_URL
    ensures url.Some? ==> url.value[|IMAGE_BASE_URL|..] == path
  {
    if path == "" then None else Some(IMAGE_BASE_URL + path)
  }

  /** `getBackdropUrl(path)`: the same rule over the w1280 base. */
  function GetBackdropUrl(path: string): (url: Option<string>)
    ensures url.None? <==> path == ""
    ensures url.Some? ==> |url.value| == |BACKDROP_BASE_URL| + |path|
    ensures url.Some? ==> url.value[..|BACKDROP_BASE_URL|] == BACKDROP_BASE_URL
    ensures url.Some? ==> url.value[|BACKDROP_BASE_URL|..] == path
  {
    if path == "" then None else Some(BACKDROP_BASE_URL + path)
  }

  /** Distinct non-empty paths give distinct URLs, and the two helpers agree on
      when there is no URL. */
  lemma ImageUrlsInjective(p: string, q: string)
    requires GetImageUrl(p) == GetImageUrl(q) || GetBackdropUrl(p) == GetBackdropUrl(q)
    ensures p == q
    ensures GetImageUrl(p).None? == GetBackdropUrl(p).None?
  {
    if GetImageUrl(p) == GetImageUrl(q) && p != "" {
      assert GetImageUrl(p).value[|IMAGE_BASE_URL|..] == p;
    }
  }
}

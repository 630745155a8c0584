/** The movie-source resolver of the `/api/movie-sources` route: a fixed,
    read-only catalog of public-domain films, a three-tier lookup by TMDB id,
    title and year, a "similar titles" search on shared long words, and the
    shapes of the GET and POST responses. Everything here is a pure function:
    the catalog is a constant and no lookup changes it. */
module MovieSources {
  import opened Options
  import opened JsBuiltins

  datatype Entry = Entry(title: string, year: int, tmdbId: int, url: string, source: string, license: string)

  /** `PUBLIC_DOMAIN_SOURCES`, in declaration order. */
  const PublicDomainSources: seq<Entry> := [
    Entry("Night of the Living Dead (1968)", 1968, 10331,
      "https://ia800707.us.archive.org/5/items/Night_of_the_Living_Dead_1968_720p/Night_of_the_Living_Dead_1968_720p.mp4",
      "archive.org", "Public Domain"),
    Entry("The Little Shop of Horrors (1960)", 1960, 32589,
      "https://ia801603.us.archive.org/13/items/TheLittleShopOfHorrors1960/The_Little_Shop_of_Horrors_1960.mp4",
      "archive.org", "Public Domain"),
    Entry("Charade (1963)", 1963, 4808,
      "https://ia800103.us.archive.org/27/items/Charade1963/Charade1963_512kb.mp4",
      "archive.org", "Public Domain"),
    Entry("Plan 9 from Outer Space (1959)", 1959, 4424,
      "https://ia800300.us.archive.org/1/items/Plan9FromOuterSpace1959/Plan9FromOuterSpace1959.mp4",
      "archive.org", "Public Domain"),
    Entry("The Phantom of the Opera (1925)", 1925, 11377,
      "https://ia800204.us.archive.org/4/items/ThePhantomoftheOpera/Phantom_of_the_Opera_512kb.mp4",
      "archive.org", "Public Domain"),
    Entry("Nosferatu (1922)", 1922, 653,
      "https://ia800701.us.archive.org/12/items/Nosferatu_201407/Nosferatu.mp4",
      "archive.org", "Public Domain"),
    Entry("The General (1926)", 1926, 961,
      "https://ia800205.us.archive.org/29/items/TheGeneral_798/TheGeneral.mp4",
      "archive.org", "Public Domain"),
    Entry("The Cabinet of Dr. Caligari (1920)", 1920, 234,
      "https://ia800302.us.archive.org/13/items/DasKabinettdesDoktorCaligariTheCabinetofDrCaligari/The_Cabinet_of_Dr_Caligari_512kb.mp4",
      "archive.org", "Public Domain"),
    Entry("Metropolis (1927)", 1927, 19,
      "https://ia800303.us.archive.org/16/items/MetropolisFritzLang1927EnglishSubtitles/Metropolis%20-%20Fritz%20Lang%20-%201927%20-%20English%20subtitles.mp4",
      "archive.org", "Public Domain"),
    Entry("The Kid (1921)", 1921, 10098,
      "https://ia800302.us.archive.org/32/items/CC_1921_01_21_TheKid/CC_1921_01_21_TheKid_512kb.mp4",
      "archive.org", "Public Domain")
  ]

  /** JavaScript truthiness of an optional number: absent, `NaN` (both `None`)
      and `0` are falsy. */
  predicate Truthy(n: Option<int>) {
    n.Some? && n.value != 0
  }

  // ---------------------------------------------------------------------
  // Array.prototype.find over the catalog
  // ---------------------------------------------------------------------

  /** The three callbacks `findMovieSource` hands to `find`. `query` is the
      lower-cased requested title. */
  datatype Criterion =
    | SameTmdbId(id: int)
    | TitleAndYear(query: string, year: int)
    | TitleOverlap(query: string)

  predicate Matches(e: Entry, c: Criterion) {
    match c
    case SameTmdbId(id) => e.tmdbId == id
    case TitleAndYear(q, y) => Includes(Lower(e.title), q) && e.year == y
    case TitleOverlap(q) => Includes(Lower(e.title), q) || Includes(q, Lower(e.title))
  }

  /** The index of the first entry that matches, if any. */
  function FirstIndex(catalog: seq<Entry>, c: Criterion): (r: Option<nat>)
    ensures r.Some? ==> r.value < |catalog| && Matches(catalog[r.value], c)
    ensures r.Some? ==> forall j :: 0 <= j < r.value ==> !Matches(catalog[j], c)
    ensures r.None? ==> forall j :: 0 <= j < |catalog| ==> !Matches(catalog[j], c)
    decreases |catalog|
  {
    if |catalog| == 0 then None
    else if Matches(catalog[0], c) then Some(0)
    else match FirstIndex(catalog[1..], c)
      case None => None
      case Some(k) => Some(k + 1)
  }

  /** `catalog.find(callback)`. */
  function Find(catalog: seq<Entry>, c: Criterion): (r: Option<Entry>)
    ensures r.Some? ==> r.value in catalog && Matches(r.value, c)
    ensures r.None? <==> forall j :: 0 <= j < |catalog| ==> !Matches(catalog[j], c)
  {
    match FirstIndex(catalog, c)
    case None => None
    case Some(k) => Some(catalog[k])
  }

  /** `find` returns the first matching entry in catalog order. */
  lemma FindFirst(catalog: seq<Entry>, c: Criterion, k: nat)
    requires k < |catalog| && Matches(catalog[k], c)
    requires forall j :: 0 <= j < k ==> !Matches(catalog[j], c)
    ensures Find(catalog, c) == Some(catalog[k])
  {
    assert FirstIndex(catalog, c).Some?;
  }

  // ---------------------------------------------------------------------
  // findMovieSource
  // ---------------------------------------------------------------------

  /** The id tier applies: a truthy id that some entry carries. */
  predicate IdHit(catalog: seq<Entry>, tmdbId: Option<int>) {
    Truthy(tmdbId) && exists j :: 0 <= j < |catalog| && Matches(catalog[j], SameTmdbId(tmdbId.value))
  }

  /** The year tier applies: a truthy year and an entry whose lower-cased
      title contains the lower-cased query and whose year is that year. */
  predicate YearHit(catalog: seq<Entry>, title: string, year: Option<int>) {
    Truthy(year) && exists j :: 0 <= j < |catalog| && Matches(catalog[j], TitleAndYear(Lower(title), year.value))
  }

  /** `findMovieSource(title, year, tmdbId)`. */
  function FindMovieSource(catalog: seq<Entry>, title: string, year: Option<int>, tmdbId: Option<int>): (r: Option<Entry>)
    ensures r.Some? ==> r.value in catalog
    ensures r.None? <==>
      !IdHit(catalog, tmdbId) && forall j :: 0 <= j < |catalog| ==> !Matches(catalog[j], TitleOverlap(Lower(title)))
  {
    var byId := if Truthy(tmdbId) then Find(catalog, SameTmdbId(tmdbId.value)) else None;
    if byId.Some? then byId
    else
      var titleLower := Lower(title);
      var byYear := if Truthy(year) then Find(catalog, TitleAndYear(titleLower, year.value)) else None;
      if byYear.Some? then byYear
      else Find(catalog, TitleOverlap(titleLower))
  }

  /** Tier one: the first entry carrying a truthy requested id wins, whatever
      the title and the year. */
  lemma IdTierWins(catalog: seq<Entry>, title: string, year: Option<int>, id: int, k: nat)
    requires id != 0
    requires k < |catalog| && catalog[k].tmdbId == id
    requires forall j :: 0 <= j < k ==> catalog[j].tmdbId != id
    ensures FindMovieSource(catalog, title, year, Some(id)) == Some(catalog[k])
  {
    FindFirst(catalog, SameTmdbId(id), k);
  }

  /** Tier two: without an id hit and with a truthy year, the first entry whose
      title contains the query (one direction only) and whose year is equal. */
  lemma YearTierWins(catalog: seq<Entry>, title: string, year: int, tmdbId: Option<int>, k: nat)
    requires !IdHit(catalog, tmdbId)
    requires year != 0
    requires k < |catalog| && Includes(Lower(catalog[k].title), Lower(title)) && catalog[k].year == year
    requires forall j :: 0 <= j < k ==> !(Includes(Lower(catalog[j].title), Lower(title)) && catalog[j].year == year)
    ensures FindMovieSource(catalog, title, Some(year), tmdbId) == Some(catalog[k])
  {
    FindFirst(catalog, TitleAndYear(Lower(title), year), k);
  }

  /** Tier three: without an id hit or a year hit, the first entry whose title
      contains the query or is contained in it. */
  lemma OverlapTierWins(catalog: seq<Entry>, title: string, year: Option<int>, tmdbId: Option<int>, k: nat)
    requires !IdHit(catalog, tmdbId) && !YearHit(catalog, title, year)
    requires k < |catalog| && Matches(catalog[k], TitleOverlap(Lower(title)))
    requires forall j :: 0 <= j < k ==> !Matches(catalog[j], TitleOverlap(Lower(title)))
    ensures FindMovieSource(catalog, title, year, tmdbId) == Some(catalog[k])
  {
    FindFirst(catalog, TitleOverlap(Lower(title)), k);
  }

  /** No two entries share a TMDB id, and none has the falsy id 0. */
  predicate DistinctTmdbIds(catalog: seq<Entry>) {
    (forall i, j :: 0 <= i < j < |catalog| ==> catalog[i].tmdbId != catalog[j].tmdbId)
    && (forall i :: 0 <= i < |catalog| ==> catalog[i].tmdbId != 0)
  }

  /** With distinct ids, asking for an entry by its own title, year and id
      finds exactly that entry. */
  lemma ResolvesToItself(catalog: seq<Entry>, k: nat)
    requires DistinctTmdbIds(catalog)
    requires k < |catalog|
    ensures FindMovieSource(catalog, catalog[k].title, Some(catalog[k].year), Some(catalog[k].tmdbId)) == Some(catalog[k])
  {
    var e := catalog[k];
    forall j | 0 <= j < k ensures catalog[j].tmdbId != e.tmdbId {
    }
    IdTierWins(catalog, e.title, Some(e.year), e.tmdbId, k);
  }

  // ---------------------------------------------------------------------
  // findSimilarMovies
  // ---------------------------------------------------------------------

  /** Some piece of the query (split on spaces) is longer than three
      characters and occurs in the entry's lower-cased title. */
  predicate SharesLongWord(e: Entry, words: seq<string>) {
    exists w :: w in words && |w| > 3 && Includes(Lower(e.title), w)
  }

  /** `a` is `b` with some elements left out, in the same order. */
  predicate IsSubsequence(a: seq<Entry>, b: seq<Entry>)
    decreases |b|
  {
    if a == [] then true
    else if b == [] then false
    else (a[0] == b[0] && IsSubsequence(a[1..], b[1..])) || IsSubsequence(a, b[1..])
  }

  lemma {:induction false} PrefixIsSubsequence(a: seq<Entry>, b: seq<Entry>, n: nat)
    requires IsSubsequence(a, b) && n <= |a|
    ensures IsSubsequence(a[..n], b)
    decreases |b|
  {
    if n == 0 || a == [] {
    } else if a[0] == b[0] && IsSubsequence(a[1..], b[1..]) {
      PrefixIsSubsequence(a[1..], b[1..], n - 1);
      assert a[..n][1..] == a[1..][..n - 1];
    } else {
      PrefixIsSubsequence(a, b[1..], n);
    }
  }

  /** `catalog.filter(...)` of `findSimilarMovies`, before the `slice`. */
  function SimilarAll(catalog: seq<Entry>, words: seq<string>): (r: seq<Entry>)
    ensures IsSubsequence(r, catalog)
    ensures forall e :: e in r ==> SharesLongWord(e, words)
    ensures forall e :: e in catalog && SharesLongWord(e, words) ==> e in r
    ensures forall e :: multiset(r)[e] == if SharesLongWord(e, words) then multiset(catalog)[e] else 0
    decreases |catalog|
  {
    if catalog == [] then []
    else
      var rest := SimilarAll(catalog[1..], words);
      assert forall e :: e in catalog ==> e == catalog[0] || e in catalog[1..];
      assert catalog == [catalog[0]] + catalog[1..];
      assert multiset(catalog) == multiset{catalog[0]} + multiset(catalog[1..]);
      if SharesLongWord(catalog[0], words) then
        assert ([catalog[0]] + rest)[1..] == rest;
        [catalog[0]] + rest
      else rest
  }

  /** `findSimilarMovies(title)`: at most five entries, in catalog order,
      each sharing a long word with the query; and when fewer than five come
      back, no sharing entry was dropped. The result is the first five (or
      fewer) entries the filter keeps. */
  function FindSimilarMovies(catalog: seq<Entry>, title: string): (r: seq<Entry>)
    ensures |r| <= 5
    ensures IsSubsequence(r, catalog)
    ensures forall e :: e in r ==> SharesLongWord(e, Split(Lower(title), ' '))
    ensures |r| < 5 ==> forall e :: e in catalog && SharesLongWord(e, Split(Lower(title), ' ')) ==> e in r
    ensures var all := SimilarAll(catalog, Split(Lower(title), ' '));
      |r| == (if |all| < 5 then |all| else 5) && r == all[..|r|]
  {
    var all := SimilarAll(catalog, Split(Lower(title), ' '));
    var n := if |all| < 5 then |all| else 5;
    PrefixIsSubsequence(all, catalog, n);
    assert n < 5 ==> all[..n] == all;
    all[..n]
  }

  // ---------------------------------------------------------------------
  // GET and POST
  // ---------------------------------------------------------------------

  /** The JSON body of a response: an HTTP 400 with an error message, or a
      lookup result `{found, movie, similar}` (`movie` is `null` in GET and
      `undefined`, so left out of the JSON, in POST; both are `None`). */
  datatype Response =
    | BadRequest(error: string)
    | Lookup(found: bool, movie: Option<Entry>, similar: seq<Entry>)

  /** `GET /api/movie-sources?title=&year=&tmdbId=`; the query parameters are
      given already parsed, `None` for a missing one (or `NaN`). */
  function Get(title: Option<string>, year: Option<int>, tmdbId: Option<int>): (r: Response)
    ensures r.BadRequest? <==> title.None? || title.value == ""
    ensures r.BadRequest? ==> r.error == "Title parameter is required"
    ensures r.Lookup? ==> (r.found <==> r.movie.Some?)
    ensures r.Lookup? && r.found ==>
      r.similar == [] && r.movie.value in PublicDomainSources
      && r.movie == FindMovieSource(PublicDomainSources, title.value, year, tmdbId)
    ensures r.Lookup? && !r.found ==>
      FindMovieSource(PublicDomainSources, title.value, year, tmdbId).None?
      && r.similar == FindSimilarMovies(PublicDomainSources, title.value)
  {
    if title.None? || title.value == "" then BadRequest("Title parameter is required")
    else
      match FindMovieSource(PublicDomainSources, title.value, year, tmdbId)
      case Some(movie) => Lookup(true, Some(movie), [])
      case None => Lookup(false, None, FindSimilarMovies(PublicDomainSources, title.value))
  }

  /** The request body of POST: not JSON at all, or a JSON object whose `id`
      is a number (`None` when missing or `null`). */
  datatype PostBody = Unparsable | Json(id: Option<int>)

  /** `POST /api/movie-sources`: the id-modulo fallback pick. JavaScript's `%`
      keeps the sign of a negative id, and indexing the array at a negative
      position yields `undefined`. */
  function Post(body: PostBody): (r: Response)
    ensures body.Unparsable? ==> r == BadRequest("Invalid request")
    ensures body.Json? && !Truthy(body.id) ==> r == BadRequest("ID parameter is required")
    ensures body.Json? && Truthy(body.id) ==> r.Lookup? && r.found && r.similar == []
    ensures body.Json? && Truthy(body.id) && body.id.value > 0 ==>
      r.movie == Some(PublicDomainSources[body.id.value % |PublicDomainSources|])
    ensures body.Json? && Truthy(body.id) && body.id.value < 0 ==>
      r.movie == if body.id.value % |PublicDomainSources| == 0 then Some(PublicDomainSources[0]) else None
  {
    match body
    case Unparsable => BadRequest("Invalid request")
    case Json(id) =>
      if !Truthy(id) then BadRequest("ID parameter is required")
      else
        var movieIndex := JsRem(id.value, |PublicDomainSources|);
        var movie := if 0 <= movieIndex < |PublicDomainSources| then Some(PublicDomainSources[movieIndex]) else None;
        Lookup(true, movie, [])
  }

  // ---------------------------------------------------------------------
  // Facts about the constant catalog
  // ---------------------------------------------------------------------

  lemma CatalogIdsDistinct()
    ensures |PublicDomainSources| == 10
    ensures DistinctTmdbIds(PublicDomainSources)
    ensures forall i :: 0 <= i < |PublicDomainSources| ==> PublicDomainSources[i].title != ""
  {
    CatalogIdRanks();
    forall i, j | 0 <= i < j < |PublicDomainSources|
      ensures PublicDomainSources[i].tmdbId != PublicDomainSources[j].tmdbId
    {
      assert IdRank(PublicDomainSources[i].tmdbId) != IdRank(PublicDomainSources[j].tmdbId);
    }
    CatalogTitles();
  }

  /** The position of a TMDB id in the catalog, `-1` for an id not in it. */
  function IdRank(id: int): int {
    if id == 10331 then 0 else if id == 32589 then 1 else if id == 4808 then 2
    else if id == 4424 then 3 else if id == 11377 then 4 else if id == 653 then 5
    else if id == 961 then 6 else if id == 234 then 7 else if id == 19 then 8
    else if id == 10098 then 9 else -1
  }

  /** Each catalog entry's id ranks at its own position, and no id is 0. */
  lemma CatalogIdRanks()
    ensures |PublicDomainSources| == 10
    ensures forall i :: 0 <= i < 10 ==> IdRank(PublicDomainSources[i].tmdbId) == i
    ensures forall i :: 0 <= i < 10 ==> PublicDomainSources[i].tmdbId != 0
  {
    var ids := seq(|PublicDomainSources|, i requires 0 <= i < |PublicDomainSources| => PublicDomainSources[i].tmdbId);
    assert ids == [10331, 32589, 4808, 4424, 11377, 653, 961, 234, 19, 10098];
  }

  lemma CatalogTitles()
    ensures forall i :: 0 <= i < |PublicDomainSources| ==> PublicDomainSources[i].title != ""
  {
    forall i | 0 <= i < |PublicDomainSources| ensures PublicDomainSources[i].title != "" {
    }
  }

  /** Every catalog entry, requested through GET by its own title, year and
      TMDB id, is found as itself with no suggestions. */
  lemma GetFindsEveryEntry(k: nat)
    requires k < |PublicDomainSources|
    ensures var e := PublicDomainSources[k];
      Get(Some(e.title), Some(e.year), Some(e.tmdbId)) == Lookup(true, Some(e), [])
  {
    CatalogIdsDistinct();
    ResolvesToItself(PublicDomainSources, k);
  }

  /** The fallback pick wraps around: ids `n` and `n + 10` give the same
      response for every positive `n`. */
  lemma {:induction false} PostWrapsAround(n: int)
    requires n > 0
    ensures Post(Json(Some(n))) == Post(Json(Some(n + |PublicDomainSources|)))
  {
    CatalogIdsDistinct();
    assert (n + 10) % 10 == n % 10;
  }
}

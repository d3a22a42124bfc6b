/**
 * `GET /api/movies` and `POST /api/movies`: which query answers a GET,
 * how stored movies are shown to the client, and the checks a POST goes
 * through (admin gate, required fields, number parsing, provider default)
 * before the one write it makes.
 */
module MoviesRoute {
  import opened Common
  import opened Text
  import opened ObjectIds
  import opened MovieModel
  import opened MovieService
  import opened Http
  import opened AuthService
  import opened AuthMiddleware

  const FetchFailedMessage: string := "Failed to fetch movies"
  const CreateFailedMessage: string := "Failed to create movie"
  const AllFieldsRequiredMessage: string := "All fields are required"

  // ---------------------------------------------------------------------
  // What the client sees of a movie
  // ---------------------------------------------------------------------

  /** The object each movie is turned into: the id as a string and the
      movie's fields, without its timestamps. */
  datatype MovieView = MovieView(
    id: string, title: string, description: string, genre: string, year: int,
    duration: int, rating: string, media: Media, video: Video)

  function ToView(m: Movie): (v: MovieView)
    ensures ViewFields(v) == m.fields && v.id == ToHexString(m.id) && |v.id| == 24
  {
    var f := m.fields;
    MovieView(ToHexString(m.id), f.title, f.description, f.genre, f.year, f.duration, f.rating, f.media, f.video)
  }

  /** The fields a view shows. */
  function ViewFields(v: MovieView): MovieFields {
    MovieFields(v.title, v.description, v.genre, v.year, v.duration, v.rating, v.media, v.video)
  }

  /** A view loses nothing of the movie but its timestamps: the fields are
      shown as stored and the id string casts back to the id. */
  lemma ViewShowsMovie(m: Movie)
    requires WellFormedId(m.id)
    ensures ViewFields(ToView(m)) == m.fields
    ensures ParseObjectId(ToView(m).id) == Some(m.id)
  {
    ParseToHexString(m.id);
  }

  /** `movies.map(...)`: one view per movie, in order. */
  function Views(s: seq<Movie>): (r: seq<MovieView>)
    ensures |r| == |s|
    ensures forall i :: 0 <= i < |s| ==> r[i] == ToView(s[i])
  {
    if s == [] then [] else [ToView(s[0])] + Views(s[1..])
  }

  // ---------------------------------------------------------------------
  // GET
  // ---------------------------------------------------------------------

  /** The query parameters `genre`, `year` and `search`, each possibly absent. */
  datatype Query = Query(genre: Option<string>, year: Option<string>, search: Option<string>)

  /** The query a GET runs. */
  datatype Source = BySearch(q: string) | ByGenre(g: string) | ByYear(y: string) | Everything

  /** The first truthy parameter in the order search, genre, year picks the
      query; with none, every movie is listed. */
  function PickSource(q: Query): (s: Source)
    ensures s.BySearch? <==> Truthy(q.search)
    ensures s.ByGenre? <==> !Truthy(q.search) && Truthy(q.genre)
    ensures s.ByYear? <==> !Truthy(q.search) && !Truthy(q.genre) && Truthy(q.year)
    ensures s.BySearch? ==> s.q == q.search.value
    ensures s.ByGenre? ==> s.g == q.genre.value
    ensures s.ByYear? ==> s.y == q.year.value
  {
    if Truthy(q.search) then BySearch(q.search.value)
    else if Truthy(q.genre) then ByGenre(q.genre.value)
    else if Truthy(q.year) then ByYear(q.year.value)
    else Everything
  }

  /** The patterns the picked query hands to `$regex` are literal text. */
  predicate LiteralSource(s: Source) {
    match s
    case BySearch(q) => LiteralPattern(q)
    case ByGenre(g) => LiteralPattern(g)
    case _ => true
  }

  /** The movies the picked query returns; a year that `parseInt` reads as
      `NaN` makes the query's cast throw. */
  function Fetch(c: seq<Movie>, s: Source): (r: Option<seq<Movie>>)
    requires LiteralSource(s)
    ensures r.None? <==> s.ByYear? && ParseInt(s.y).None?
  {
    match s
    case BySearch(q) => Some(SearchMovies(c, q))
    case ByGenre(g) => Some(GetMoviesByGenre(c, g))
    case ByYear(y) =>
      (match ParseInt(y)
       case None => None
       case Some(n) => Some(GetMoviesByYear(c, n)))
    case Everything => Some(GetAllMovies(c))
  }

  /** `GET`: 200 with the views of the picked query's movies, or 500 when
      the query throws. */
  function Get(c: seq<Movie>, q: Query): (r: Response<seq<MovieView>>)
    requires LiteralSource(PickSource(q))
    ensures Succeeded(r) <==> Fetch(c, PickSource(q)).Some?
    ensures Succeeded(r) ==> r.status == StatusOk && r.body.data == Views(Fetch(c, PickSource(q)).value)
    ensures !Succeeded(r) ==> r == Fail(StatusServerError, FetchFailedMessage)
  {
    match Fetch(c, PickSource(q))
    case None => Fail(StatusServerError, FetchFailedMessage)
    case Some(movies) => Response(StatusOk, Data(Views(movies)))
  }

  /** Without parameters, or with only empty ones, a GET lists every movie
      newest first; an empty `search` falls through to the next parameter. */
  lemma GetWithoutFilters(c: seq<Movie>, q: Query)
    requires !Truthy(q.search) && !Truthy(q.genre) && !Truthy(q.year)
    ensures Get(c, q) == Response(StatusOk, Data(Views(GetAllMovies(c))))
  {
    assert PickSource(q) == Everything;
  }

  /** A GET by year shows exactly the movies of that year, newest first. */
  lemma GetByYearShowsThatYear(c: seq<Movie>, y: int, genre: Option<string>, search: Option<string>)
    requires !Truthy(search) && !Truthy(genre)
    ensures Get(c, Query(genre, Some(IntToString(y)), search))
      == Response(StatusOk, Data(Views(GetMoviesByYear(c, y))))
  {
    var q := Query(genre, Some(IntToString(y)), search);
    assert PickSource(q) == ByYear(IntToString(y));
    ParseIntOfIntToString(y);
  }

  // ---------------------------------------------------------------------
  // POST
  // ---------------------------------------------------------------------

  /** A JSON value given for `year` or `duration`: a string or an integer. */
  datatype Scalar = Text(s: string) | Number(n: int)

  datatype MediaBody = MediaBody(thumbnail: Option<string>, backdrop: Option<string>)
  datatype VideoBody = VideoBody(url: Option<string>, provider: Option<string>)

  /** The fields a POST body may carry, each possibly absent. */
  datatype PostBody = PostBody(
    title: Option<string>, description: Option<string>, genre: Option<string>,
    year: Option<Scalar>, duration: Option<Scalar>, rating: Option<string>,
    media: Option<MediaBody>, video: Option<VideoBody>)

  predicate TruthyScalar(v: Option<Scalar>) {
    match v
    case None => false
    case Some(Text(s)) => s != ""
    case Some(Number(n)) => n != 0
  }

  /** `parseInt(v)`: a number is converted to its string first, so one
      below 10^21 in magnitude is read back whole and a larger one, written
      in exponent notation, gives only its signed leading digit. */
  function ParseScalar(v: Scalar): (r: Option<int>)
    ensures v.Number? && -(ExponentThreshold as int) < v.n < ExponentThreshold ==> r == Some(v.n)
    ensures v.Number? && v.n >= ExponentThreshold ==> r == Some(LeadingDigit(v.n))
    ensures v.Number? && v.n <= -(ExponentThreshold as int) ==> r == Some(-(LeadingDigit(-v.n) as int))
    ensures v.Text? ==> r == ParseInt(v.s)
  {
    match v
    case Text(s) => ParseInt(s)
    case Number(n) =>
      ParseIntOfNumberToString(n);
      ParseInt(NumberToString(n))
  }

  /** The required-field check: every field truthy, including both media
      URLs and the video URL. */
  predicate AllRequired(b: PostBody) {
    && Truthy(b.title) && Truthy(b.description) && Truthy(b.genre)
    && TruthyScalar(b.year) && TruthyScalar(b.duration) && Truthy(b.rating)
    && b.media.Some? && Truthy(b.media.value.thumbnail) && Truthy(b.media.value.backdrop)
    && b.video.Some? && Truthy(b.video.value.url)
  }

  /** `video.provider || 'local'`: the provider given, unless it is absent
      or empty. */
  function ProviderOrLocal(p: Option<string>): (r: string)
    ensures r != ""
    ensures Truthy(p) ==> r == p.value
    ensures !Truthy(p) ==> r == "local"
  {
    if Truthy(p) then p.value else "local"
  }

  /** The submission handed to `createMovie`, once the numbers are parsed:
      the body's strings as sent, the parsed numbers, and a provider that is
      never absent, so the schema's own default never applies. */
  function Submission(b: PostBody, year: int, duration: int): (d: MovieInput)
    requires AllRequired(b)
    ensures d.title == b.title.value && d.description == b.description.value
    ensures d.genre == b.genre.value && d.rating == b.rating.value
    ensures d.year == year && d.duration == duration
    ensures d.media == Media(b.media.value.thumbnail.value, b.media.value.backdrop.value)
    ensures d.video.url == b.video.value.url.value
    ensures d.video.provider == Some(ProviderOrLocal(b.video.value.provider))
  {
    MovieInput(
      b.title.value, b.description.value, b.genre.value, year, duration, b.rating.value,
      Media(b.media.value.thumbnail.value, b.media.value.backdrop.value),
      VideoInput(b.video.value.url.value, Some(ProviderOrLocal(b.video.value.provider))))
  }

  /** Where a POST ends before the write: an answer, or the submission. */
  datatype PostStep = Answer(response: Response<MovieView>) | Submit(dto: MovieInput)

  /** The checks of `POST` in their order: the admin gate (401 with its
      message), a body that cannot be read (500), a missing or falsy field
      (400), a year or duration that is not a number (500, the create's
      cast failing); otherwise the submission. */
  function PostCheck(header: Option<string>, verify: string -> Option<Claims>, body: Option<PostBody>): (step: PostStep)
    ensures Authenticate(header, verify).Unauthorized? ==>
      step == Answer(UnauthorizedResponse(Some(Authenticate(header, verify).error)))
    ensures Authenticate(header, verify).Authorized? && body.None? ==>
      step == Answer(Fail(StatusServerError, CreateFailedMessage))
    ensures Authenticate(header, verify).Authorized? && body.Some? && !AllRequired(body.value) ==>
      step == Answer(Fail(StatusBadRequest, AllFieldsRequiredMessage))
    ensures step.Submit? <==>
      && Authenticate(header, verify).Authorized? && body.Some? && AllRequired(body.value)
      && ParseScalar(body.value.year.value).Some? && ParseScalar(body.value.duration.value).Some?
    ensures step.Answer? ==> !Succeeded(step.response)
    ensures step.Submit? ==> step.dto == Submission(body.value,
      ParseScalar(body.value.year.value).value, ParseScalar(body.value.duration.value).value)
  {
    match Authenticate(header, verify)
    case Unauthorized(error) => Answer(UnauthorizedResponse(Some(error)))
    case Authorized(_) =>
      if body.None? then Answer(Fail(StatusServerError, CreateFailedMessage))
      else if !AllRequired(body.value) then Answer(Fail(StatusBadRequest, AllFieldsRequiredMessage))
      else
        var b := body.value;
        match (ParseScalar(b.year.value), ParseScalar(b.duration.value))
        case (Some(year), Some(duration)) => Submit(Submission(b, year, duration))
        case _ => Answer(Fail(StatusServerError, CreateFailedMessage))
  }

  /** What reaches `createMovie` carries every required field non-empty and
      a named provider. The year and duration may still be zero or negative:
      the string `"0"` is truthy and parses to 0, and the schema refuses it. */
  lemma SubmissionIsComplete(header: Option<string>, verify: string -> Option<Claims>, body: Option<PostBody>)
    requires PostCheck(header, verify, body).Submit?
    ensures var d := PostCheck(header, verify, body).dto;
      && d.title != "" && d.description != "" && d.genre != "" && d.rating != ""
      && d.media.thumbnail != "" && d.media.backdrop != "" && d.video.url != ""
      && d.video.provider.Some? && d.video.provider.value != ""
  {
  }

  /** A POST whose video has no provider, or an empty one, submits `local`,
      which the schema stores as the local provider. */
  lemma MissingProviderIsLocal(header: Option<string>, verify: string -> Option<Claims>, b: PostBody)
    requires PostCheck(header, verify, Some(b)).Submit?
    requires !Truthy(b.video.value.provider)
    ensures PostCheck(header, verify, Some(b)).dto.video == VideoInput(b.video.value.url.value, Some("local"))
    ensures ParseProvider(PostCheck(header, verify, Some(b)).dto.video.provider) == Some(Local)
  {
  }

  /** The falsy spellings of a zero duration, the number `0` and the empty
      string, are refused with 400; the string `"0"` is truthy, passes this
      check and is refused by the schema, with 500. */
  lemma ZeroDurationRefused(header: Option<string>, verify: string -> Option<Claims>, b: PostBody)
    requires Authenticate(header, verify).Authorized?
    requires b.duration == Some(Number(0)) || b.duration == Some(Text(""))
    ensures PostCheck(header, verify, Some(b)) == Answer(Fail(StatusBadRequest, AllFieldsRequiredMessage))
  {
  }

  /** `POST`: the checks, then `createMovie`; 201 with the view of the new
      movie, or 500 when the schema refuses the submission. The store is
      written only on a 201. */
  method Post(store: MovieStore, header: Option<string>, verify: string -> Option<Claims>,
              body: Option<PostBody>) returns (r: Response<MovieView>)
    requires store.Valid() && store.clock + 1 < IdSpace
    modifies store
    ensures store.Valid()
    ensures PostCheck(header, verify, body).Answer? ==>
      r == PostCheck(header, verify, body).response
    ensures PostCheck(header, verify, body).Submit? && !ValidInput(PostCheck(header, verify, body).dto) ==>
      r == Fail(StatusServerError, CreateFailedMessage)
    ensures !Succeeded(r) ==> store.movies == old(store.movies) && store.clock == old(store.clock)
    ensures Succeeded(r) <==>
      PostCheck(header, verify, body).Submit? && ValidInput(PostCheck(header, verify, body).dto)
    ensures Succeeded(r) ==>
      var m := Movie(ObjectId(store.clock), Cast(PostCheck(header, verify, body).dto), store.clock, store.clock);
      && store.clock == old(store.clock) + 1
      && store.movies == old(store.movies) + [m]
      && r == Response(StatusCreated, Data(ToView(m)))
  {
    var step := PostCheck(header, verify, body);
    if step.Answer? {
      return step.response;
    }
    var created := store.CreateMovie(step.dto);
    match created
    case Failure(_) =>
      r := Fail(StatusServerError, CreateFailedMessage);
    case Success(m) =>
      r := Response(StatusCreated, Data(ToView(m)));
  }
}

/**
 * The movie service: an in-memory view of the movie collection with the
 * service's read queries (all movies newest first, lookup by id, search,
 * by genre, by year) as functions of the collection, and its writes
 * (create, update, delete) as methods of a store object that owns it.
 */
module MovieService {
  import opened Common
  import opened Text
  import opened Seqs
  import opened ObjectIds
  import opened MovieModel

  /** A stored movie document: its id, its fields and the schema's timestamps,
      which are values of the store's logical clock. */
  datatype Movie = Movie(id: ObjectId, fields: MovieFields, createdAt: nat, updatedAt: nat)

  /** Why a service call is refused: the id is 24 characters but not an
      ObjectId (Mongoose's `CastError`), or the update validators failed. */
  datatype ServiceError = CastError | ValidationError(messages: seq<string>)

  /** The service's `UpdateMovieDto`: each top-level field may be supplied or
      left out; `media` and `video` are replaced as a whole when supplied. */
  datatype MoviePatch = MoviePatch(
    title: Option<string>,
    description: Option<string>,
    genre: Option<string>,
    year: Option<int>,
    duration: Option<int>,
    rating: Option<string>,
    media: Option<Media>,
    video: Option<VideoInput>)

  // ---------------------------------------------------------------------
  // Order: `.sort({ createdAt: -1 })`
  // ---------------------------------------------------------------------

  function CreatedAt(m: Movie): int {
    m.createdAt
  }

  /** No movie is preceded by a movie created before it. */
  predicate NewestFirst(s: seq<Movie>) {
    DescendingBy(s, CreatedAt)
  }

  /** `getAllMovies`: every stored movie exactly once, newest first. */
  function GetAllMovies(c: seq<Movie>): (r: seq<Movie>)
    ensures NewestFirst(r)
    ensures multiset(r) == multiset(c)
  {
    SortDescending(c, CreatedAt)
  }

  /** The movies of `c` that satisfy `p`, newest first. */
  function Select(c: seq<Movie>, p: Movie -> bool): (r: seq<Movie>)
    ensures NewestFirst(r)
    ensures forall m :: multiset(r)[m] == if p(m) then multiset(c)[m] else 0
  {
    FilterDescending(GetAllMovies(c), p, CreatedAt);
    Filter(GetAllMovies(c), p)
  }

  // ---------------------------------------------------------------------
  // Lookup by id
  // ---------------------------------------------------------------------

  predicate HasId(c: seq<Movie>, id: ObjectId) {
    exists i :: 0 <= i < |c| && c[i].id == id
  }

  /** No two movies share an id. */
  predicate UniqueIds(c: seq<Movie>) {
    forall i, j :: 0 <= i < |c| && 0 <= j < |c| && c[i].id == c[j].id ==> i == j
  }

  /** The position of the first movie with this id. */
  function IndexOfId(c: seq<Movie>, id: ObjectId): (r: Option<nat>)
    ensures r.None? <==> !HasId(c, id)
    ensures r.Some? ==> r.value < |c| && c[r.value].id == id
    ensures r.Some? ==> forall k :: 0 <= k < r.value ==> c[k].id != id
  {
    if c == [] then None
    else if c[0].id == id then Some(0)
    else
      var r := IndexOfId(c[1..], id);
      if r.None? then None else Some(r.value + 1)
  }

  /** The guard of `getMovieById`, `updateMovie` and `deleteMovie`: an empty
      id, or one whose length is not 24, is not looked up. */
  predicate IdShaped(id: string) {
    id != "" && |id| == ObjectIdLength
  }

  /** `getMovieById`: nothing for an id of the wrong length; a cast error for
      24 characters that are not hexadecimal; otherwise the movie with the
      ObjectId the string denotes, or nothing when no movie has it. */
  function GetMovieById(c: seq<Movie>, id: string): (r: Result<Option<Movie>, ServiceError>)
    ensures !IdShaped(id) ==> r == Success(None)
    ensures r.Failure? <==> IdShaped(id) && !IsHexString(id)
    ensures r.Failure? ==> r.error == CastError
    ensures r.Success? && r.value.Some? <==> IdShaped(id) && IsHexString(id) && HasId(c, ParseObjectId(id).value)
    ensures r.Success? && r.value.Some? ==> r.value.value in c && r.value.value.id == ParseObjectId(id).value
  {
    if !IdShaped(id) then Success(None)
    else
      match ParseObjectId(id)
      case None => Failure(CastError)
      case Some(oid) =>
        match IndexOfId(c, oid)
        case None => Success(None)
        case Some(i) => Success(Some(c[i]))
  }

  /** Every stored movie is found by the string form of its id. */
  lemma FoundByStringId(c: seq<Movie>, i: nat)
    requires UniqueIds(c) && i < |c| && WellFormedId(c[i].id)
    ensures GetMovieById(c, ToHexString(c[i].id)) == Success(Some(c[i]))
  {
    ParseToHexString(c[i].id);
  }

  // ---------------------------------------------------------------------
  // Search, genre and year queries
  // ---------------------------------------------------------------------

  /** The characters that make a `$regex` pattern differ from a literal. */
  predicate IsRegexMeta(c: char) {
    c in ".^$*+?()[]{}|\\"
  }

  /** A query that `$regex` reads as the literal text it is. */
  predicate LiteralPattern(q: string) {
    forall i :: 0 <= i < |q| ==> !IsRegexMeta(q[i])
  }

  /** `{ $regex: q, $options: 'i' }` on a field, for a literal `q`: the field
      contains `q`, letters compared without regard to case. */
  predicate RegexMatches(field: string, q: string) {
    ContainsIgnoreCase(field, q)
  }

  predicate MatchesQuery(m: Movie, q: string) {
    RegexMatches(m.fields.title, q) || RegexMatches(m.fields.description, q) || RegexMatches(m.fields.genre, q)
  }

  /** `searchMovies`: a blank query gives every movie; otherwise the movies
      whose title, description or genre contains the query regardless of
      case, each once, newest first. */
  function SearchMovies(c: seq<Movie>, q: string): (r: seq<Movie>)
    requires LiteralPattern(q)
    ensures IsBlank(q) ==> r == GetAllMovies(c)
    ensures NewestFirst(r)
    ensures !IsBlank(q) ==> forall m :: multiset(r)[m] == if MatchesQuery(m, q) then multiset(c)[m] else 0
  {
    if q == "" || Trim(q) == "" then GetAllMovies(c)
    else Select(c, (m: Movie) => MatchesQuery(m, q))
  }

  /** `getMoviesByGenre`: the movies whose genre contains `g` regardless of
      case, newest first. */
  function GetMoviesByGenre(c: seq<Movie>, g: string): (r: seq<Movie>)
    requires LiteralPattern(g)
    ensures NewestFirst(r)
    ensures forall m :: multiset(r)[m] == if RegexMatches(m.fields.genre, g) then multiset(c)[m] else 0
  {
    Select(c, (m: Movie) => RegexMatches(m.fields.genre, g))
  }

  /** `getMoviesByYear`: the movies of exactly that year, newest first. */
  function GetMoviesByYear(c: seq<Movie>, y: int): (r: seq<Movie>)
    ensures NewestFirst(r)
    ensures forall m :: multiset(r)[m] == if m.fields.year == y then multiset(c)[m] else 0
  {
    Select(c, (m: Movie) => m.fields.year == y)
  }

  /** Every search result is a stored movie that matches. */
  lemma SearchResultsMatch(c: seq<Movie>, q: string, m: Movie)
    requires LiteralPattern(q) && !IsBlank(q)
    requires m in SearchMovies(c, q)
    ensures m in c && MatchesQuery(m, q)
  {
    assert m in multiset(SearchMovies(c, q));
  }

  // ---------------------------------------------------------------------
  // Updates: `$set` of the supplied top-level fields, update validators
  // ---------------------------------------------------------------------

  function OptionalError<T>(v: Option<T>, check: T -> Option<string>): Option<string> {
    if v.Some? then check(v.value) else None
  }

  /** The update validators: each supplied path is checked against its rule,
      the paths left out are not. */
  function ValidatePatch(p: MoviePatch): (errors: seq<string>) {
    Listed(OptionalError(p.title, TitleError))
    + Listed(OptionalError(p.description, DescriptionError))
    + Listed(OptionalError(p.genre, s => RequiredError(s, "Genre is required")))
    + Listed(OptionalError(p.year, YearError))
    + Listed(OptionalError(p.rating, s => RequiredError(s, "Rating is required")))
    + Listed(OptionalError(p.duration, DurationError))
    + Listed(OptionalError(p.media, (md: Media) => RequiredError(md.thumbnail, "Thumbnail URL is required")))
    + Listed(OptionalError(p.media, (md: Media) => RequiredError(md.backdrop, "Backdrop URL is required")))
    + Listed(OptionalError(p.video, (v: VideoInput) => RequiredError(v.url, "Video URL is required")))
    + Listed(OptionalError(p.video, (v: VideoInput) => ProviderError(v.provider)))
  }

  /** Each supplied field passes its rule. */
  predicate PatchOk(p: MoviePatch) {
    && (p.title.Some? ==> TitleOk(p.title.value))
    && (p.description.Some? ==> DescriptionOk(p.description.value))
    && (p.genre.Some? ==> Present(p.genre.value))
    && (p.year.Some? ==> YearOk(p.year.value))
    && (p.rating.Some? ==> Present(p.rating.value))
    && (p.duration.Some? ==> DurationOk(p.duration.value))
    && (p.media.Some? ==> Present(p.media.value.thumbnail) && Present(p.media.value.backdrop))
    && (p.video.Some? ==> Present(p.video.value.url) && ProviderOk(p.video.value.provider))
  }

  lemma ValidatePatchIff(p: MoviePatch)
    ensures ValidatePatch(p) == [] <==> PatchOk(p)
  {
  }

  /** `$set` on one string path: the supplied value after the trimming
      setter, or the stored value when the path is not supplied. */
  function SetText(v: Option<string>, stored: string): (r: string)
    ensures v.Some? ==> r == Trim(v.value)
    ensures v.None? ==> r == stored
    ensures StoredText(stored) && (v.Some? ==> Present(v.value)) ==> StoredText(r)
  {
    if v.Some? then Trim(v.value) else stored
  }

  /** The record after `$set`: supplied fields, trimmed by the schema's
      setters, replace the stored ones; the rest are kept. */
  function ApplyPatch(m: MovieFields, p: MoviePatch): (r: MovieFields)
    requires PatchOk(p)
    ensures ValidMovie(m) ==> ValidMovie(r)
  {
    MovieFields(
      SetText(p.title, m.title),
      SetText(p.description, m.description),
      SetText(p.genre, m.genre),
      p.year.GetOr(m.year),
      p.duration.GetOr(m.duration),
      SetText(p.rating, m.rating),
      SetMedia(p.media, m.media),
      SetVideo(p.video, m.video))
  }

  /** `$set` on `media`: both URLs replaced, after trimming. */
  function SetMedia(v: Option<Media>, stored: Media): (r: Media)
    requires v.Some? ==> Present(v.value.thumbnail) && Present(v.value.backdrop)
    ensures v.Some? ==> r == Media(Trim(v.value.thumbnail), Trim(v.value.backdrop))
    ensures v.None? ==> r == stored
    ensures StoredText(stored.thumbnail) && StoredText(stored.backdrop) ==>
      StoredText(r.thumbnail) && StoredText(r.backdrop)
  {
    if v.Some? then Media(Trim(v.value.thumbnail), Trim(v.value.backdrop)) else stored
  }

  /** `$set` on `video`: the whole reference is replaced, the URL trimmed; a
      provider left out stays out, as an update applies no defaults. */
  function SetVideo(v: Option<VideoInput>, stored: Video): (r: Video)
    requires v.Some? ==> Present(v.value.url) && ProviderOk(v.value.provider)
    ensures v.Some? ==> r.url == Trim(v.value.url)
    ensures v.Some? && v.value.provider.None? ==> r.provider.None?
    ensures v.Some? && v.value.provider.Some? ==> r.provider == ParseProvider(v.value.provider) && r.provider.Some?
    ensures v.None? ==> r == stored
    ensures StoredText(stored.url) ==> StoredText(r.url)
  {
    if v.None? then stored
    else if v.value.provider.None? then Video(Trim(v.value.url), None)
    else Video(Trim(v.value.url), ParseProvider(v.value.provider))
  }

  /** The stored movie with the patch's raw values written over it. */
  function Merge(m: MovieFields, p: MoviePatch): MovieInput {
    var stored := AsInput(m);
    MovieInput(
      p.title.GetOr(stored.title),
      p.description.GetOr(stored.description),
      p.genre.GetOr(stored.genre),
      p.year.GetOr(stored.year),
      p.duration.GetOr(stored.duration),
      p.rating.GetOr(stored.rating),
      p.media.GetOr(stored.media),
      p.video.GetOr(stored.video))
  }

  /** Checking only the supplied paths is the same as re-validating the merged
      record: for a stored movie, the patch passes exactly when the stored
      movie with the patch written over it passes the schema. */
  lemma PatchCheckIsRevalidation(m: MovieFields, p: MoviePatch)
    requires ValidMovie(m)
    ensures PatchOk(p) <==> ValidInput(Merge(m, p))
  {
    NormalizeStored(m);
    var stored, d := AsInput(m), Merge(m, p);
    assert ValidInput(stored);
    assert d.title == p.title.GetOr(stored.title) && d.description == p.description.GetOr(stored.description);
    assert d.video == p.video.GetOr(stored.video) && d.media == p.media.GetOr(stored.media);
  }

  /** An accepted update stores what casting the merged record gives (which
      is what `Normalize` makes of it, by `Normalize`'s contract), except that
      the provider default is not filled in. */
  lemma PatchStoresCast(m: MovieFields, p: MoviePatch)
    requires ValidMovie(m) && PatchOk(p)
    ensures ValidInput(Merge(m, p)) && Cast(Merge(m, p)) == WithDefaults(ApplyPatch(m, p))
  {
    PatchCheckIsRevalidation(m, p);
    var d, a := Merge(m, p), ApplyPatch(m, p);
    assert Trim(d.title) == a.title && Trim(d.description) == a.description;
    assert Trim(d.genre) == a.genre && Trim(d.rating) == a.rating;
    assert d.media == p.media.GetOr(m.media);
    SetVideoCast(p.video, m.video);
  }

  /** The video part of `PatchStoresCast`: casting the merged video reference
      gives the `$set` result with the provider default filled in. */
  lemma SetVideoCast(v: Option<VideoInput>, stored: Video)
    requires v.Some? ==> Present(v.value.url) && ProviderOk(v.value.provider)
    requires Trim(stored.url) == stored.url
    ensures var i := v.GetOr(VideoInput(stored.url, ProviderNameOf(stored.provider)));
            Video(Trim(i.url), ParseProvider(i.provider)) == Video(SetVideo(v, stored).url, Some(SetVideo(v, stored).provider.GetOr(Local)))
  {
  }

  /** The patch that supplies nothing. */
  const EmptyPatch := MoviePatch(None, None, None, None, None, None, None, None)

  /** An update that supplies only the year changes only the year. */
  lemma YearOnlyUpdate(m: MovieFields, y: int)
    requires YearOk(y)
    ensures ApplyPatch(m, EmptyPatch.(year := Some(y))) == m.(year := y)
  {
  }

  // ---------------------------------------------------------------------
  // Deletion
  // ---------------------------------------------------------------------

  /** The collection without the movies that have this id. */
  function WithoutId(c: seq<Movie>, id: ObjectId): (r: seq<Movie>)
    ensures !HasId(r, id)
    ensures forall m :: multiset(r)[m] == if m.id == id then 0 else multiset(c)[m]
    ensures Subsequence(r, c)
  {
    Filter(c, (m: Movie) => m.id != id)
  }

  /** With ids unique, removing the movie at its position removes that id. */
  lemma RemoveAtIsWithoutId(c: seq<Movie>, i: nat)
    requires UniqueIds(c) && i < |c|
    ensures c[..i] + c[i + 1..] == WithoutId(c, c[i].id)
  {
    FilterRemovesOne(c, i, (m: Movie) => m.id != c[i].id);
  }

  // ---------------------------------------------------------------------
  // The store
  // ---------------------------------------------------------------------

  /** Creation order: the collection lists movies in the order they were
      inserted, which is the order of their creation times. */
  predicate Chronological(c: seq<Movie>) {
    forall i, j :: 0 <= i < j < |c| ==> c[i].createdAt < c[j].createdAt
  }

  /** What holds of each stored movie at logical time `clock`: it passes the
      schema, was created and last updated no later than `clock`, and its
      ObjectId is the one generated at its creation time. */
  predicate WellFormed(m: Movie, clock: nat) {
    && ValidMovie(m.fields)
    && 0 < m.createdAt <= m.updatedAt <= clock < IdSpace
    && m.id == ObjectId(m.createdAt)
  }

  predicate StoreInvariant(c: seq<Movie>, clock: nat) {
    && clock < IdSpace
    && (forall i :: 0 <= i < |c| ==> WellFormed(c[i], clock))
    && Chronological(c)
  }

  /** In a well-formed collection every movie has its own id, and each id
      has a string form. */
  lemma InvariantGivesUniqueIds(c: seq<Movie>, clock: nat)
    requires StoreInvariant(c, clock)
    ensures UniqueIds(c)
    ensures forall i :: 0 <= i < |c| ==> WellFormedId(c[i].id)
  {
  }

  /** A time later than every creation time gives an id no stored movie has. */
  lemma FreshId(c: seq<Movie>, clock: nat, t: nat)
    requires StoreInvariant(c, clock) && clock < t
    ensures !HasId(c, ObjectId(t))
  {
  }

  /** A movie appended under an id no other movie has is found by that id. */
  lemma AppendedIsFound(c: seq<Movie>, m: Movie)
    requires !HasId(c, m.id) && WellFormedId(m.id)
    ensures GetMovieById(c + [m], ToHexString(m.id)) == Success(Some(m))
  {
    ParseToHexString(m.id);
    assert (c + [m])[|c|] == m;
    assert forall k :: 0 <= k < |c| ==> (c + [m])[k] == c[k];
  }

  /** A movie created at the next tick may be appended. */
  lemma InvariantAppend(c: seq<Movie>, clock: nat, m: Movie)
    requires StoreInvariant(c, clock) && clock + 1 < IdSpace
    requires WellFormed(m, clock + 1) && m.createdAt == clock + 1
    ensures StoreInvariant(c + [m], clock + 1)
  {
  }

  /** A movie may be replaced by one with its id and creation time that was
      updated at the next tick. */
  lemma InvariantReplace(c: seq<Movie>, clock: nat, i: nat, m: Movie)
    requires StoreInvariant(c, clock) && clock + 1 < IdSpace && i < |c|
    requires WellFormed(m, clock + 1) && m.createdAt == c[i].createdAt
    ensures StoreInvariant(c[i := m], clock + 1)
  {
  }

  /** Removing a movie keeps the rest well formed and in order. */
  lemma InvariantRemove(c: seq<Movie>, clock: nat, i: nat)
    requires StoreInvariant(c, clock) && i < |c|
    ensures StoreInvariant(c[..i] + c[i + 1..], clock)
  {
    var d := c[..i] + c[i + 1..];
    assert forall k :: 0 <= k < |d| ==> d[k] == if k < i then c[k] else c[k + 1];
  }

  /** The movie collection, with the logical clock that stamps its writes. */
  class MovieStore {
    var movies: seq<Movie>
    var clock: nat

    ghost predicate Valid()
      reads this
    {
      StoreInvariant(movies, clock)
    }

    constructor ()
      ensures Valid() && movies == [] && clock == 0
    {
      movies := [];
      clock := 0;
    }

    /** `createMovie`: a submission that passes the schema is stored as one new
        movie with a fresh id and both timestamps at the new time; one that
        fails is refused with its messages and nothing is stored. */
    method CreateMovie(dto: MovieInput) returns (r: Result<Movie, ServiceError>)
      requires Valid() && clock + 1 < IdSpace
      modifies this
      ensures Valid()
      ensures r.Success? <==> ValidInput(dto)
      ensures r.Failure? ==>
        r.error == ValidationError(Validate(dto)) && movies == old(movies) && clock == old(clock)
      ensures r.Success? ==>
        && clock == old(clock) + 1
        && r.value == Movie(ObjectId(clock), Cast(dto), clock, clock)
        && movies == old(movies) + [r.value]
      ensures r.Success? ==>
        !HasId(old(movies), r.value.id) && GetMovieById(movies, ToHexString(r.value.id)) == Success(Some(r.value))
    {
      if !ValidInput(dto) {
        return Failure(ValidationError(Validate(dto)));
      }
      var m := Insert(Cast(dto));
      r := Success(m);
    }

    /** The insertion behind `Movie.create`, once the document has passed the
        schema: a new movie under the next tick's ObjectId, appended. */
    method Insert(fields: MovieFields) returns (m: Movie)
      requires Valid() && clock + 1 < IdSpace && ValidMovie(fields)
      modifies this
      ensures Valid()
      ensures clock == old(clock) + 1 && m == Movie(ObjectId(clock), fields, clock, clock)
      ensures movies == old(movies) + [m]
      ensures !HasId(old(movies), m.id) && GetMovieById(movies, ToHexString(m.id)) == Success(Some(m))
    {
      var now := clock + 1;
      m := Movie(ObjectId(now), fields, now, now);
      FreshId(movies, clock, now);
      InvariantAppend(movies, clock, m);
      AppendedIsFound(movies, m);
      clock := now;
      movies := movies + [m];
    }

    /** `updateMovie`: nothing for an id of the wrong length; a cast error for
        one that is not hexadecimal; the update validators' messages when a
        supplied field breaks its rule; nothing when no movie has the id;
        otherwise the movie with the supplied fields replaced, its id and
        creation time kept and its update time the new time. */
    method UpdateMovie(id: string, patch: MoviePatch) returns (r: Result<Option<Movie>, ServiceError>)
      requires Valid() && clock + 1 < IdSpace
      modifies this
      ensures Valid()
      ensures !(IdShaped(id) && IsHexString(id) && PatchOk(patch) && HasId(old(movies), ParseObjectId(id).value)) ==>
        movies == old(movies) && clock == old(clock)
      ensures !IdShaped(id) ==> r == Success(None)
      ensures IdShaped(id) && !IsHexString(id) ==> r == Failure(CastError)
      ensures IdShaped(id) && IsHexString(id) && !PatchOk(patch) ==> r == Failure(ValidationError(ValidatePatch(patch)))
      ensures IdShaped(id) && IsHexString(id) && PatchOk(patch) && !HasId(old(movies), ParseObjectId(id).value) ==>
        r == Success(None)
      ensures IdShaped(id) && IsHexString(id) && PatchOk(patch) && HasId(old(movies), ParseObjectId(id).value) ==>
        var i := IndexOfId(old(movies), ParseObjectId(id).value).value;
        var was := old(movies)[i];
        && clock == old(clock) + 1
        && r == Success(Some(Movie(was.id, ApplyPatch(was.fields, patch), was.createdAt, clock)))
        && movies == old(movies)[i := r.value.value]
    {
      if id == "" || |id| != ObjectIdLength {
        return Success(None);
      }
      var oid := ParseObjectId(id);
      if oid.None? {
        return Failure(CastError);
      }
      if !PatchOk(patch) {
        return Failure(ValidationError(ValidatePatch(patch)));
      }
      match IndexOfId(movies, oid.value)
      case None =>
        r := Success(None);
      case Some(i) =>
        var was := movies[i];
        var updated := Movie(was.id, ApplyPatch(was.fields, patch), was.createdAt, clock + 1);
        InvariantReplace(movies, clock, i, updated);
        clock := clock + 1;
        movies := movies[i := updated];
        r := Success(Some(updated));
    }

    /** `deleteMovie`: false for an id of the wrong length; a cast error for
        one that is not hexadecimal; otherwise true exactly when a movie with
        that id was stored, which is then gone while every other movie stays,
        in order. */
    method DeleteMovie(id: string) returns (r: Result<bool, ServiceError>)
      requires Valid()
      modifies this
      ensures Valid() && clock == old(clock)
      ensures r.Failure? <==> IdShaped(id) && !IsHexString(id)
      ensures r.Failure? ==> r.error == CastError
      ensures r == Success(true) <==> IdShaped(id) && IsHexString(id) && HasId(old(movies), ParseObjectId(id).value)
      ensures r == Success(true) ==> movies == WithoutId(old(movies), ParseObjectId(id).value)
      ensures r != Success(true) ==> movies == old(movies)
      ensures r.Success? ==> GetMovieById(movies, id) == Success(None)
    {
      if id == "" || |id| != ObjectIdLength {
        return Success(false);
      }
      var oid := ParseObjectId(id);
      if oid.None? {
        return Failure(CastError);
      }
      match IndexOfId(movies, oid.value)
      case None =>
        r := Success(false);
      case Some(i) =>
        InvariantGivesUniqueIds(movies, clock);
        RemoveAtIsWithoutId(movies, i);
        InvariantRemove(movies, clock, i);
        movies := movies[..i] + movies[i + 1..];
        r := Success(true);
    }
  }
}

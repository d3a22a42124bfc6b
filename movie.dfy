/**
 * The movie document schema: the fields of a movie, the rules the schema
 * enforces when a movie is written (required, trimmed, length limits, year
 * range, minimum duration, provider enumeration) and the normalisation the
 * schema applies before checking them (trimming setters, provider default).
 */
module MovieModel {
  import opened Common
  import opened Text

  /** Where a movie's video is hosted. */
  datatype Provider = Local | Cloudinary | S3

  /** The string the schema stores for a provider. */
  function ProviderName(p: Provider): string {
    match p
    case Local => "local"
    case Cloudinary => "cloudinary"
    case S3 => "s3"
  }

  /** The provider names the schema's enumeration admits. */
  const ProviderNames: set<string> := {"local", "cloudinary", "s3"}

  /** The `enum` and `default` of `video.provider`: an absent value becomes
      `local`, a listed name becomes its provider, any other string is refused. */
  function ParseProvider(s: Option<string>): (r: Option<Provider>)
    ensures s.None? ==> r == Some(Local)
    ensures s.Some? ==> (r.Some? <==> s.value in ProviderNames)
    ensures s.Some? && r.Some? ==> ProviderName(r.value) == s.value
  {
    match s
    case None => Some(Local)
    case Some(name) =>
      if name == "local" then Some(Local)
      else if name == "cloudinary" then Some(Cloudinary)
      else if name == "s3" then Some(S3)
      else None
  }

  /** Every provider is read back from its own name. */
  lemma ProviderRoundTrip(p: Provider)
    ensures ParseProvider(Some(ProviderName(p))) == Some(p)
  {
  }

  datatype Media = Media(thumbnail: string, backdrop: string)

  /** The stored video reference. A document written by `create` always has
      a provider; one whose `video` an update replaced without naming a
      provider has none, since `$set` applies no defaults. */
  datatype Video = Video(url: string, provider: Option<Provider>)

  /** The video reference as submitted: the provider may be left out. */
  datatype VideoInput = VideoInput(url: string, provider: Option<string>)

  /** The fields of a stored movie (identity and timestamps are the store's). */
  datatype MovieFields = MovieFields(
    title: string,
    description: string,
    genre: string,
    year: int,
    duration: int,
    rating: string,
    media: Media,
    video: Video)

  /** A movie as submitted for creation, before the schema's setters and
      defaults have run. */
  datatype MovieInput = MovieInput(
    title: string,
    description: string,
    genre: string,
    year: int,
    duration: int,
    rating: string,
    media: Media,
    video: VideoInput)

  const TitleMaxLength: nat := 200
  const DescriptionMaxLength: nat := 1000
  const MinYear: int := 1900
  const MaxYear: int := 2100
  const MinDuration: int := 1

  // ---------------------------------------------------------------------
  // The rules, one per path, on submitted values
  // ---------------------------------------------------------------------

  /** `required` on a trimmed string: what is left after trimming is not empty. */
  predicate Present(s: string) {
    Trim(s) != ""
  }

  predicate TitleOk(s: string) {
    Present(s) && |Trim(s)| <= TitleMaxLength
  }

  predicate DescriptionOk(s: string) {
    Present(s) && |Trim(s)| <= DescriptionMaxLength
  }

  predicate YearOk(y: int) {
    MinYear <= y <= MaxYear
  }

  predicate DurationOk(d: int) {
    d >= MinDuration
  }

  predicate ProviderOk(p: Option<string>) {
    ParseProvider(p).Some?
  }

  /** Every rule of the schema holds of the submitted movie. */
  predicate ValidInput(d: MovieInput) {
    && TitleOk(d.title)
    && DescriptionOk(d.description)
    && Present(d.genre)
    && YearOk(d.year)
    && Present(d.rating)
    && DurationOk(d.duration)
    && Present(d.media.thumbnail)
    && Present(d.media.backdrop)
    && Present(d.video.url)
    && ProviderOk(d.video.provider)
  }

  /** A stored string: required and trimmed. */
  predicate StoredText(s: string) {
    s != "" && Trimmed(s)
  }

  /** What every stored movie satisfies: each string field is non-empty and
      carries no surrounding whitespace, the title has at most 200 and the
      description at most 1000 characters, the year lies in 1900..2100 and
      the duration is at least one second. */
  predicate ValidMovie(m: MovieFields) {
    && StoredText(m.title) && |m.title| <= TitleMaxLength
    && StoredText(m.description) && |m.description| <= DescriptionMaxLength
    && StoredText(m.genre)
    && MinYear <= m.year <= MaxYear
    && StoredText(m.rating)
    && m.duration >= MinDuration
    && StoredText(m.media.thumbnail)
    && StoredText(m.media.backdrop)
    && StoredText(m.video.url)
  }

  // ---------------------------------------------------------------------
  // Validation messages
  // ---------------------------------------------------------------------

  /** The message of the first validator of a path that fails, if any. */
  function TitleError(s: string): (e: Option<string>)
    ensures e.None? <==> TitleOk(s)
  {
    if !Present(s) then Some("Title is required")
    else if |Trim(s)| > TitleMaxLength then Some("Title cannot exceed 200 characters")
    else None
  }

  function DescriptionError(s: string): (e: Option<string>)
    ensures e.None? <==> DescriptionOk(s)
  {
    if !Present(s) then Some("Description is required")
    else if |Trim(s)| > DescriptionMaxLength then Some("Description cannot exceed 1000 characters")
    else None
  }

  function RequiredError(s: string, message: string): (e: Option<string>)
    ensures e.None? <==> Present(s)
  {
    if Present(s) then None else Some(message)
  }

  function YearError(y: int): (e: Option<string>)
    ensures e.None? <==> YearOk(y)
  {
    if y < MinYear then Some("Year must be after 1900")
    else if y > MaxYear then Some("Year must be before 2100")
    else None
  }

  function DurationError(d: int): (e: Option<string>)
    ensures e.None? <==> DurationOk(d)
  {
    if d < MinDuration then Some("Duration must be at least 1 second") else None
  }

  /** Mongoose's default message for a value outside an enumeration. */
  function ProviderError(p: Option<string>): (e: Option<string>)
    ensures e.None? <==> ProviderOk(p)
  {
    if ParseProvider(p).Some? then None
    else Some("`" + p.value + "` is not a valid enum value for path `video.provider`.")
  }

  /** The messages of a failed validation: one per failing path, in the order
      the schema declares the paths. */
  function Validate(d: MovieInput): (errors: seq<string>)
    ensures errors == [] <==> ValidInput(d)
  {
    Listed(TitleError(d.title))
    + Listed(DescriptionError(d.description))
    + Listed(RequiredError(d.genre, "Genre is required"))
    + Listed(YearError(d.year))
    + Listed(RequiredError(d.rating, "Rating is required"))
    + Listed(DurationError(d.duration))
    + Listed(RequiredError(d.media.thumbnail, "Thumbnail URL is required"))
    + Listed(RequiredError(d.media.backdrop, "Backdrop URL is required"))
    + Listed(RequiredError(d.video.url, "Video URL is required"))
    + Listed(ProviderError(d.video.provider))
  }

  // ---------------------------------------------------------------------
  // Casting a submitted movie into a stored one
  // ---------------------------------------------------------------------

  /** What the schema makes of a submitted movie: the trimmed fields with the
      provider default applied, or the validation messages when a rule fails. */
  function Normalize(d: MovieInput): (r: Result<MovieFields, seq<string>>)
    ensures r.Success? <==> ValidInput(d)
    ensures r.Failure? ==> r.error == Validate(d) && r.error != []
    ensures r.Success? ==> r.value == Cast(d) && ValidMovie(r.value)
  {
    if ValidInput(d) then Success(Cast(d)) else Failure(Validate(d))
  }

  /** The schema's setters and defaults: each string trimmed, an absent
      provider made `local`. */
  function Cast(d: MovieInput): (m: MovieFields)
    requires ProviderOk(d.video.provider)
    ensures m.title == Trim(d.title) && m.description == Trim(d.description)
    ensures m.genre == Trim(d.genre) && m.rating == Trim(d.rating)
    ensures m.year == d.year && m.duration == d.duration
    ensures m.media == Media(Trim(d.media.thumbnail), Trim(d.media.backdrop))
    ensures m.video.url == Trim(d.video.url)
    ensures m.video.provider == ParseProvider(d.video.provider) && m.video.provider.Some?
    ensures ValidInput(d) ==> ValidMovie(m)
  {
    MovieFields(
      Trim(d.title),
      Trim(d.description),
      Trim(d.genre),
      d.year,
      d.duration,
      Trim(d.rating),
      Media(Trim(d.media.thumbnail), Trim(d.media.backdrop)),
      Video(Trim(d.video.url), ParseProvider(d.video.provider)))
  }

  /** A stored movie written back as a submission, its provider (if any)
      named explicitly. */
  function AsInput(m: MovieFields): MovieInput {
    MovieInput(m.title, m.description, m.genre, m.year, m.duration, m.rating,
               m.media, VideoInput(m.video.url, ProviderNameOf(m.video.provider)))
  }

  function ProviderNameOf(p: Option<Provider>): (r: Option<string>)
    ensures ParseProvider(r) == Some(p.GetOr(Local))
  {
    match p
    case None => None
    case Some(q) =>
      ProviderRoundTrip(q);
      Some(ProviderName(q))
  }

  /** The movie with the schema's defaults filled in: a missing provider
      becomes `local`, everything else is kept. */
  function WithDefaults(m: MovieFields): (d: MovieFields)
    ensures d.video.provider == Some(m.video.provider.GetOr(Local))
    ensures d.(video := m.video) == m && d.video.url == m.video.url
    ensures m.video.provider.Some? ==> d == m
  {
    m.(video := Video(m.video.url, Some(m.video.provider.GetOr(Local))))
  }

  /** Casting is idempotent: resubmitting a stored movie stores it with only
      the defaults filled in, so one that has its provider is stored unchanged. */
  lemma NormalizeStored(m: MovieFields)
    requires ValidMovie(m)
    ensures Normalize(AsInput(m)) == Success(WithDefaults(m))
  {
    assert ValidInput(AsInput(m));
  }

  /** A title that is blank or longer than 200 characters once trimmed, a
      year outside 1900..2100 or a duration below one second is refused. */
  lemma RejectedSubmissions(d: MovieInput)
    requires !Present(d.title) || |Trim(d.title)| > TitleMaxLength
             || d.year < MinYear || d.year > MaxYear || d.duration < MinDuration
    ensures Normalize(d).Failure?
  {
  }
}

/**
 * The admin movies page: its list of movies, the form it edits, and the
 * handlers that send the form to the API and bring the list up to date
 * with the answer. The API calls are the functions the handlers are given.
 */
module AdminMoviesPage {
  import opened Common
  import opened Text
  import opened Seqs
  import opened MovieModel
  import opened Http
  import opened MoviesRoute
  import opened AuthService
  import opened AuthMiddleware

  /** `ApiResponse<T>` as the client helpers return it. */
  datatype ApiResponse<T> = ApiResponse(success: bool, data: Option<T>, error: Option<string>)

  /** The flat form state: the duration is kept as the text typed in. */
  datatype FormData = FormData(
    title: string, description: string, genre: string, year: int, duration: string,
    rating: string, media: Media, videoUrl: string)

  /** `resetForm`: every field empty, the year the current one. */
  function EmptyForm(currentYear: int): (f: FormData)
    ensures f.year == currentYear && f.title == "" && f.description == "" && f.genre == ""
    ensures f.duration == "" && f.rating == "" && f.media == Media("", "") && f.videoUrl == ""
  {
    FormData("", "", "", currentYear, "", "", Media("", ""), "")
  }

  /** `parseInt(duration) || 0`: the number typed, or 0 when there is none. */
  function DurationOrZero(s: string): (d: int)
    ensures ParseInt(s).Some? ==> d == ParseInt(s).value
    ensures ParseInt(s).None? ==> d == 0
  {
    match ParseInt(s)
    case None => 0
    case Some(n) => n
  }

  /** The movie the handlers send: the form's fields, the duration parsed,
      and the provider always `local`. */
  function Payload(f: FormData): (p: MovieInput)
    ensures p.video.provider == Some("local") && p.duration == DurationOrZero(f.duration)
  {
    MovieInput(f.title, f.description, f.genre, f.year, DurationOrZero(f.duration), f.rating,
               f.media, VideoInput(f.videoUrl, Some("local")))
  }

  /** `openEditDialog`'s form: the movie's fields, the duration written out
      by `toString`, so that reading it back gives the movie's duration below
      10^21 in magnitude and only its signed leading digit from there on. */
  function FormOf(m: MovieView): (f: FormData)
    ensures f.title == m.title && f.description == m.description && f.genre == m.genre
    ensures f.year == m.year && f.rating == m.rating && f.media == m.media && f.videoUrl == m.video.url
    ensures -(ExponentThreshold as int) < m.duration < ExponentThreshold ==> DurationOrZero(f.duration) == m.duration
    ensures m.duration >= ExponentThreshold ==> DurationOrZero(f.duration) == LeadingDigit(m.duration)
    ensures m.duration <= -(ExponentThreshold as int) ==> DurationOrZero(f.duration) == -(LeadingDigit(-m.duration) as int)
  {
    ParseIntOfNumberToString(m.duration);
    FormData(m.title, m.description, m.genre, m.year, NumberToString(m.duration), m.rating,
             m.media, m.video.url)
  }

  /** Saving an edit form left as it was opened sends the movie back as it
      is, except that its provider becomes `local`, as long as the duration
      is below 10^21 in magnitude; a larger one is sent back as a single
      digit, so it changes. */
  lemma UnchangedEditResends(m: MovieView)
    ensures -(ExponentThreshold as int) < m.duration < ExponentThreshold ==>
      Payload(FormOf(m)) ==
        MovieInput(m.title, m.description, m.genre, m.year, m.duration, m.rating,
                   m.media, VideoInput(m.video.url, Some("local")))
    ensures m.duration >= ExponentThreshold || m.duration <= -(ExponentThreshold as int) ==>
      -10 < Payload(FormOf(m)).duration < 10 && Payload(FormOf(m)).duration != m.duration
  {
  }

  /** The body `POST /api/movies` reads back from `JSON.stringify` of a
      payload: every field present, the numbers as JSON numbers. */
  function RequestBody(p: MovieInput): (b: PostBody)
    ensures b.title == Some(p.title) && b.description == Some(p.description)
    ensures b.genre == Some(p.genre) && b.rating == Some(p.rating)
    ensures b.year == Some(Number(p.year)) && b.duration == Some(Number(p.duration))
    ensures b.media == Some(MediaBody(Some(p.media.thumbnail), Some(p.media.backdrop)))
    ensures b.video == Some(VideoBody(Some(p.video.url), p.video.provider))
  {
    PostBody(Some(p.title), Some(p.description), Some(p.genre), Some(Number(p.year)),
             Some(Number(p.duration)), Some(p.rating),
             Some(MediaBody(Some(p.media.thumbnail), Some(p.media.backdrop))),
             Some(VideoBody(Some(p.video.url), p.video.provider)))
  }

  /** Submitting a form just reset: for an admin, the route's required-field
      check answers 400 "All fields are required" before the schema sees the
      payload, and that message is what the page alerts. The payload would
      fail the schema as well, the missing title first. */
  lemma EmptyFormRefused(currentYear: int, header: Option<string>, verify: string -> Option<Claims>)
    requires Authenticate(header, verify).Authorized?
    ensures PostCheck(header, verify, Some(RequestBody(Payload(EmptyForm(currentYear))))) ==
      Answer(Fail(StatusBadRequest, AllFieldsRequiredMessage))
    ensures AlertText(Some(AllFieldsRequiredMessage), "Failed to create movie") == AllFieldsRequiredMessage
    ensures !ValidInput(Payload(EmptyForm(currentYear)))
    ensures Normalize(Payload(EmptyForm(currentYear))).Failure?
    ensures Normalize(Payload(EmptyForm(currentYear))).error[0] == "Title is required"
  {
    assert !Truthy(RequestBody(Payload(EmptyForm(currentYear))).title);
  }

  // ---------------------------------------------------------------------
  // The list updates
  // ---------------------------------------------------------------------

  /** `[created, ...movies]`. */
  function Prepend(x: MovieView, s: seq<MovieView>): (r: seq<MovieView>)
    ensures |r| == |s| + 1 && r[0] == x && r[1..] == s
  {
    [x] + s
  }

  /** `movies.map(m => m.id === id ? updated : m)`. */
  function ReplaceById(s: seq<MovieView>, id: string, x: MovieView): (r: seq<MovieView>)
    ensures |r| == |s|
    ensures forall i :: 0 <= i < |s| ==> r[i] == if s[i].id == id then x else s[i]
  {
    if s == [] then [] else [if s[0].id == id then x else s[0]] + ReplaceById(s[1..], id, x)
  }

  /** When only the entry at `i` has the id, replacing by id is replacing
      at `i`. */
  lemma ReplaceOnlyEntry(s: seq<MovieView>, i: nat, x: MovieView)
    requires i < |s| && forall j :: 0 <= j < |s| && j != i ==> s[j].id != s[i].id
    ensures ReplaceById(s, s[i].id, x) == s[i := x]
  {
  }

  /** `movies.filter(m => m.id !== id)`. */
  function RemoveById(s: seq<MovieView>, id: string): (r: seq<MovieView>)
    ensures forall i :: 0 <= i < |r| ==> r[i].id != id
    ensures forall m :: multiset(r)[m] == if m.id == id then 0 else multiset(s)[m]
    ensures Subsequence(r, s)
  {
    Filter(s, (m: MovieView) => m.id != id)
  }

  /** The movie's title or genre contains the query, regardless of case. */
  predicate Matches(m: MovieView, q: string) {
    ContainsIgnoreCase(m.title, q) || ContainsIgnoreCase(m.genre, q)
  }

  /** `filteredMovies`: the movies whose title or genre contains the query,
      regardless of case, in list order. */
  function FilterMovies(s: seq<MovieView>, q: string): (r: seq<MovieView>)
    ensures forall i :: 0 <= i < |r| ==> Matches(r[i], q)
    ensures forall m :: multiset(r)[m] == (if Matches(m, q) then multiset(s)[m] else 0)
    ensures Subsequence(r, s)
  {
    Filter(s, (m: MovieView) => Matches(m, q))
  }

  /** Every string contains the empty one. */
  lemma ContainsEmpty(s: string)
    ensures ContainsIgnoreCase(s, "")
  {
    assert Lower("") == [];
  }

  /** An empty search box shows the whole list. */
  lemma EmptyQueryKeepsAll(s: seq<MovieView>)
    ensures FilterMovies(s, "") == s
  {
    forall i | 0 <= i < |s|
      ensures ContainsIgnoreCase(s[i].title, "")
    {
      ContainsEmpty(s[i].title);
    }
    FilterKeepsAll(s, (m: MovieView) => Matches(m, ""));
  }

  /** `result.error || fallback`. */
  function AlertText(error: Option<string>, fallback: string): (t: string)
    ensures Truthy(error) ==> t == error.value
    ensures !Truthy(error) ==> t == fallback
  {
    if Truthy(error) then error.value else fallback
  }

  // ---------------------------------------------------------------------
  // The page state and its handlers
  // ---------------------------------------------------------------------

  class AdminMoviesPage {
    var movies: seq<MovieView>
    var searchQuery: string
    var formData: FormData
    var editingMovie: Option<MovieView>
    var isAddDialogOpen: bool
    var isEditDialogOpen: bool
    var submitting: bool
    /** The message of the last `alert`, if one was shown. */
    var alert: Option<string>

    constructor (currentYear: int)
      ensures movies == [] && searchQuery == "" && formData == EmptyForm(currentYear)
      ensures editingMovie.None? && !isAddDialogOpen && !isEditDialogOpen && !submitting && alert.None?
    {
      movies := [];
      searchQuery := "";
      formData := EmptyForm(currentYear);
      editingMovie := None;
      isAddDialogOpen := false;
      isEditDialogOpen := false;
      submitting := false;
      alert := None;
    }

    /** The list the table shows. */
    function FilteredMovies(): (r: seq<MovieView>)
      reads this
      ensures Subsequence(r, movies)
    {
      FilterMovies(movies, searchQuery)
    }

    /** `handleAddMovie`: the form's payload is sent; a created movie goes
        first in the list and the dialog closes with the form reset; a
        failure is alerted and the list is kept. */
    method HandleAddMovie(createMovie: MovieInput -> ApiResponse<MovieView>, currentYear: int)
      modifies this
      ensures var result := createMovie(Payload(old(formData)));
        if result.success && result.data.Some? then
          && movies == Prepend(result.data.value, old(movies))
          && !isAddDialogOpen && formData == EmptyForm(currentYear) && alert == old(alert)
        else
          && movies == old(movies) && isAddDialogOpen == old(isAddDialogOpen) && formData == old(formData)
          && alert == Some(AlertText(result.error, "Failed to create movie"))
      ensures !submitting
      ensures searchQuery == old(searchQuery) && editingMovie == old(editingMovie)
      ensures isEditDialogOpen == old(isEditDialogOpen)
    {
      submitting := true;
      var result := createMovie(Payload(formData));
      if result.success && result.data.Some? {
        movies := Prepend(result.data.value, movies);
        isAddDialogOpen := false;
        formData := EmptyForm(currentYear);
      } else {
        alert := Some(AlertText(result.error, "Failed to create movie"));
      }
      submitting := false;
    }

    /** `handleEditMovie`: nothing happens when no movie is being edited;
        otherwise the payload is sent for the edited id, and an updated movie
        replaces every entry with that id, the dialog closing with the form
        reset; a failure is alerted and the list is kept. */
    method HandleEditMovie(updateMovie: (string, MovieInput) -> ApiResponse<MovieView>, currentYear: int)
      modifies this
      ensures old(editingMovie).None? ==>
        && movies == old(movies) && formData == old(formData) && editingMovie == old(editingMovie)
        && isEditDialogOpen == old(isEditDialogOpen) && submitting == old(submitting) && alert == old(alert)
      ensures old(editingMovie).Some? ==>
        var id := old(editingMovie).value.id;
        var result := updateMovie(id, Payload(old(formData)));
        && !submitting
        && if result.success && result.data.Some? then
             && movies == ReplaceById(old(movies), id, result.data.value)
             && !isEditDialogOpen && editingMovie.None? && formData == EmptyForm(currentYear)
             && alert == old(alert)
           else
             && movies == old(movies) && editingMovie == old(editingMovie) && formData == old(formData)
             && isEditDialogOpen == old(isEditDialogOpen)
             && alert == Some(AlertText(result.error, "Failed to update movie"))
      ensures searchQuery == old(searchQuery) && isAddDialogOpen == old(isAddDialogOpen)
    {
      if editingMovie.None? {
        return;
      }
      submitting := true;
      var id := editingMovie.value.id;
      var result := updateMovie(id, Payload(formData));
      if result.success && result.data.Some? {
        movies := ReplaceById(movies, id, result.data.value);
        isEditDialogOpen := false;
        editingMovie := None;
        formData := EmptyForm(currentYear);
      } else {
        alert := Some(AlertText(result.error, "Failed to update movie"));
      }
      submitting := false;
    }

    /** `handleDeleteMovie`: nothing happens unless the user confirms; a
        deletion the API accepts removes exactly the entries with that id; a
        failure is alerted and the list is kept. */
    method HandleDeleteMovie(id: string, confirmed: bool, deleteMovie: string -> ApiResponse<()>)
      modifies this
      ensures !confirmed ==> movies == old(movies) && alert == old(alert)
      ensures confirmed && deleteMovie(id).success ==> movies == RemoveById(old(movies), id) && alert == old(alert)
      ensures confirmed && !deleteMovie(id).success ==>
        movies == old(movies) && alert == Some(AlertText(deleteMovie(id).error, "Failed to delete movie"))
      ensures searchQuery == old(searchQuery) && formData == old(formData) && editingMovie == old(editingMovie)
      ensures isAddDialogOpen == old(isAddDialogOpen) && isEditDialogOpen == old(isEditDialogOpen)
      ensures submitting == old(submitting)
    {
      if !confirmed {
        return;
      }
      var result := deleteMovie(id);
      if result.success {
        movies := RemoveById(movies, id);
      } else {
        alert := Some(AlertText(result.error, "Failed to delete movie"));
      }
    }

    /** `openEditDialog`: the movie becomes the one being edited, the form
        shows its fields and the edit dialog opens. */
    method OpenEditDialog(m: MovieView)
      modifies this
      ensures editingMovie == Some(m) && formData == FormOf(m) && isEditDialogOpen
      ensures movies == old(movies) && searchQuery == old(searchQuery) && alert == old(alert)
      ensures isAddDialogOpen == old(isAddDialogOpen) && submitting == old(submitting)
    {
      editingMovie := Some(m);
      formData := FormOf(m);
      isEditDialogOpen := true;
    }

    /** Typing in the search box. */
    method SetSearchQuery(q: string)
      modifies this
      ensures searchQuery == q && FilteredMovies() == FilterMovies(movies, q)
      ensures movies == old(movies) && formData == old(formData) && editingMovie == old(editingMovie)
      ensures isAddDialogOpen == old(isAddDialogOpen) && isEditDialogOpen == old(isEditDialogOpen)
      ensures submitting == old(submitting) && alert == old(alert)
    {
      searchQuery := q;
    }
  }
}

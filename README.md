# StreamFlix core, modelled in Dafny

StreamFlix is a Next.js movie-streaming site. It has a MongoDB movie catalogue and an admin area protected by JSON Web Tokens. This project models the core of its server and admin client:

- **The movie schema.** The required, trimmed, length, range and enumeration rules, the validation messages, and the casting of a submission into a stored movie.
- **The movie service.** The read queries are functions of the collection. The writes (create, update, delete) are methods of a `MovieStore` class holding the collection and a logical clock that stamps ids and timestamps.
- **The admin schema and authentication service.** Email normalisation, the email pattern, password hashing on save, password comparison, token issue and verification, login, and registration into a `CredentialStore` class.
- **The admin gate** (`authMiddleware`) and its two refusal helpers.
- **The route handlers.** `GET`/`POST /api/movies` and `POST /api/auth/login`.
- **The admin movies page** (`AdminMoviesPage` class) and the header search box (`Search` class). Each event handler is a method over the component's state.

The libraries are parameters of the operations that use them:

- `jwt.sign` and `jwt.verify`;
- `bcrypt.hash` and `bcrypt.compare`;
- the client's API helpers;
- `confirm()`.

Where a library call can throw, its parameter returns `None` or `Failure`.

Files:

| file | module | contents |
|---|---|---|
| common.dfy | Common | `Option`, `Result` |
| text.dfy | Text | ASCII `trim`, `toLowerCase`, `includes`, `parseInt` (radix 10), integer `toString` and `String` of an integer-valued number |
| seqs.dfy | Seqs | `filter`, subsequences, sorting by a key (largest first) |
| objectid.dfy | ObjectIds | 24-hex-digit ObjectIds, their string form and the string cast |
| movie.dfy | MovieModel | models/Movie.ts |
| movie_service.dfy | MovieService | services/movieService.ts |
| admin.dfy | AdminModel | models/Admin.ts |
| auth_service.dfy | AuthService | services/authService.ts |
| http.dfy | Http | the `{ success, data / error }` JSON answers and their status codes |
| auth_middleware.dfy | AuthMiddleware | lib/auth-middleware.ts |
| movies_route.dfy | MoviesRoute | app/api/movies/route.ts |
| login_route.dfy | LoginRoute | app/api/auth/login/route.ts |
| admin_movies_page.dfy | AdminMoviesPage | app/admin/movies/page.tsx |
| search.dfy | SearchBox | components/search.tsx |

Where the behaviour depends on the libraries the code relies on, the model follows that library behaviour:

- **Mongoose validation order.** For each path, the first failing validator gives that path's message, and paths are checked in declaration order.
- **`match` and `required`.** A `match` validator passes on an empty value; `required` has already reported it.
- **Validation before hashing.** Validation runs before the pre-save hook, so the password length is checked on the plaintext.
- **Setters on queries.** Schema setters (`trim`, `lowercase`) also apply to query values. `findOne({ email })` therefore looks up the normalised email.
- **Update validators.** `findByIdAndUpdate` with `runValidators` checks only the supplied paths, before the document is looked up.
- **Bad ids.** A 24-character id that is not hexadecimal makes the cast throw (`CastError`), so such an id is refused with a cast error rather than answered with "not found".
- **Validators before the lookup.** The update validators run on the supplied fields before the movie is looked up, so an invalid patch is refused even for an unknown id.
- **No defaults on update.** A `$set` without `upsert` applies no schema defaults: a `video` replaced without a provider is stored without one.
- **`String` of a number.** `parseInt` converts a number to its string first; from 10^21 on that string is in exponent notation, so only the leading digit is read.

## Model

| member | source | states |
|---|---|---|
| Text.Trim | models/Movie.ts:32 | the `trim` setter's result has no surrounding whitespace, is empty exactly when the input is blank, and is the input itself when that is already trimmed |
| Text.TrimContent | models/Movie.ts:32 | the trimmed value is what is left of the input between a blank prefix and a blank suffix |
| Text.TrimIdempotent | models/Movie.ts:32 | trimming a trimmed value changes nothing |
| Text.Lower | components/search.tsx:27 | `toLowerCase` keeps the length and lower-cases every letter |
| Text.LowerIdempotent | components/search.tsx:27 | lower-casing twice is lower-casing once |
| Text.TrimStartLower | models/Admin.ts:21-22 | stripping leading whitespace commutes with lower-casing |
| Text.TrimEndLower | models/Admin.ts:21-22 | stripping trailing whitespace commutes with lower-casing |
| Text.ContainsIff | components/search.tsx:27 | `includes` holds exactly when the needle sits in the string at some offset |
| Text.ParseIntTrimStart | app/api/movies/route.ts:24 | `parseInt` skips leading whitespace and then reads an optionally signed digit run |
| Text.ParseSignedDigits | app/api/movies/route.ts:86-87 | `parseInt` gives `NaN` exactly when no digit follows the optional sign |
| Text.ParseIntOfIntToString | app/api/movies/route.ts:23-24 | the decimal writing of an integer reads back as that integer |
| Text.NumberToString | app/api/movies/route.ts:86-87 | a number below 10^21 in magnitude is written in decimal |
| Text.LeadingDigitIsFirst | app/api/movies/route.ts:86-87 | the digit the exponent notation starts with is the first digit of the decimal form |
| Text.ParseIntOfNumberToString | app/api/movies/route.ts:86-87 | `parseInt` of a number gives the number below 10^21 in magnitude, and only its signed leading digit from there on |
| Seqs.Filter | app/admin/movies/page.tsx:156 | `filter` keeps exactly the occurrences that satisfy the predicate, in their order |
| Seqs.SortDescending | services/movieService.ts:45 | `sort({ createdAt: -1 })` is newest-first and a permutation of the collection |
| ObjectIds.ToHexString | app/api/movies/route.ts:31 | an id's string form has 24 characters |
| ObjectIds.ParseObjectId | services/movieService.ts:59 | the id cast succeeds exactly on 24 hexadecimal digits |
| ObjectIds.ParseToHexString | services/movieService.ts:59 | casting an id's string form gives the id back |
| ObjectIds.ToHexStringInjective | app/api/movies/route.ts:31 | distinct ids have distinct string forms |
| MovieModel.ParseProvider | models/Movie.ts:82-86 | an absent provider defaults to `local`; a present one is accepted exactly when it is `local`, `cloudinary` or `s3`, and is read as itself |
| MovieModel.ProviderRoundTrip | models/Movie.ts:82-86 | every provider is read back from its stored name |
| MovieModel.TitleError | models/Movie.ts:29-34 | a title gets a message exactly when it is blank or longer than 200 characters once trimmed |
| MovieModel.DescriptionError | models/Movie.ts:35-40 | a description gets a message exactly when it is blank or longer than 1000 characters once trimmed |
| MovieModel.RequiredError | models/Movie.ts:41-46 | a required trimmed string gets its message exactly when it is blank |
| MovieModel.YearError | models/Movie.ts:47-53 | a year gets a message exactly when it is outside 1900..2100 |
| MovieModel.DurationError | models/Movie.ts:59-63 | a duration gets a message exactly when it is below 1 |
| MovieModel.ProviderError | models/Movie.ts:82-86 | a provider gets the enumeration message exactly when it is not one of the three names |
| MovieModel.Validate | models/Movie.ts:27-92 | there are no messages exactly when every rule of the schema holds |
| MovieModel.Normalize | models/Movie.ts:27-92 | a submission is stored exactly when it passes every rule; the stored movie is the trimmed submission with the provider default, and satisfies the stored-movie invariant; otherwise the failure carries the messages |
| MovieModel.WithDefaults | models/Movie.ts:82-86 | filling in the defaults gives a missing provider the value `local` and changes nothing else; a movie with a provider is kept as it is |
| MovieModel.ProviderNameOf | models/Movie.ts:82-86 | a stored provider written back as a name, or left out when absent, reads back as itself, or as `local` when absent |
| MovieModel.NormalizeStored | models/Movie.ts:27-92 | casting is idempotent up to the defaults: a stored movie resubmitted is stored with only a missing provider filled in, so one with a provider is stored unchanged |
| MovieModel.RejectedSubmissions | models/Movie.ts:29-63 | a blank or over-long title, an out-of-range year or a duration below 1 is refused |
| MovieService.GetAllMovies | services/movieService.ts:43-47 | every stored movie exactly once, newest first |
| MovieService.IndexOfId | services/movieService.ts:59 | the first position of a movie with the id, or none exactly when no movie has it |
| MovieService.GetMovieById | services/movieService.ts:52-61 | nothing for an empty id or one whose length is not 24; a cast error exactly for 24 non-hexadecimal characters; otherwise the stored movie with that id, or nothing exactly when none has it |
| MovieService.FoundByStringId | services/movieService.ts:52-61 | every stored movie is found by its id's string form |
| MovieService.SearchMovies | services/movieService.ts:112-130 | a blank query lists every movie; otherwise exactly the movies whose title, description or genre contains the query ignoring case, newest first |
| MovieService.SearchResultsMatch | services/movieService.ts:119-125 | every search result is a stored movie that matches the query |
| MovieService.GetMoviesByGenre | services/movieService.ts:135-145 | exactly the movies whose genre contains the pattern ignoring case, newest first |
| MovieService.GetMoviesByYear | services/movieService.ts:150-158 | exactly the movies of that year, newest first |
| MovieService.ValidatePatchIff | services/movieService.ts:86-90 | the update validators report nothing exactly when every supplied field passes its rule |
| MovieService.SetText | services/movieService.ts:88 | `$set` on a string path stores the trimmed supplied value, or keeps the stored one, and keeps it a stored string |
| MovieService.SetVideo | services/movieService.ts:86-90 | `$set` on `video` replaces the reference with the URL trimmed; a provider left out stays absent, a named one is read as itself; the URL stays a stored string |
| MovieService.ApplyPatch | services/movieService.ts:86-90 | an accepted patch keeps a valid stored movie valid |
| MovieService.PatchCheckIsRevalidation | services/movieService.ts:86-90 | checking only the supplied paths accepts exactly the patches whose merge with the stored movie passes the whole schema |
| MovieService.PatchStoresCast | services/movieService.ts:86-90 | an accepted update stores what the schema makes of that merge, except that a provider left out of a replaced video is not defaulted |
| MovieService.SetVideoCast | services/movieService.ts:86-90 | casting the merged video reference gives the `$set` result with only the provider default filled in |
| MovieService.YearOnlyUpdate | services/movieService.ts:86-90 | an update that supplies only the year changes only the year |
| MovieService.WithoutId | services/movieService.ts:105 | deletion leaves no movie with the id and every other movie as often as before, in order |
| MovieService.RemoveAtIsWithoutId | services/movieService.ts:105 | with unique ids, removing a movie at its position is removing its id |
| MovieService.MovieStore.constructor | services/movieService.ts:43-47 | the store starts empty and well formed |
| MovieService.MovieStore.CreateMovie | services/movieService.ts:66-71 | a valid submission is appended as the cast movie with a fresh id found by its string form, both timestamps the new time; an invalid one fails with the schema's messages and nothing changes |
| MovieService.MovieStore.UpdateMovie | services/movieService.ts:76-93 | wrong-length id gives nothing; a non-hex id gives a cast error; a patch breaking a rule gives its messages; an unknown id gives nothing; otherwise the movie is replaced in place by its patched version, with its id and creation time kept and the new update time; the store invariant is kept |
| MovieService.MovieStore.DeleteMovie | services/movieService.ts:98-107 | true exactly when a movie had the id, which is then removed with all else kept in order; a cast error for a non-hex id; afterwards the id is not found |
| AdminModel.NormalizeEmail | models/Admin.ts:17-27 | the stored email is trimmed and has no upper-case letter |
| AdminModel.SettersCommute | models/Admin.ts:21-22 | the stored email is the lower-cased email trimmed, which is the trimmed email lower-cased: the `trim` and `lowercase` setters commute |
| AdminModel.NormalizeEmailIdempotent | models/Admin.ts:17-27 | a stored email is stored unchanged when written again |
| AdminModel.EmailPatternIff | models/Admin.ts:23-26 | the email pattern accepts exactly a dotted name, `@`, and a domain |
| AdminModel.DomainOkIff | models/Admin.ts:23-26 | the domain part is a dotted name followed by top-level groups of 2 or 3 word characters |
| AdminModel.EmailPatternShape | models/Admin.ts:23-26 | an accepted address has no whitespace and exactly one `@`, so trimming leaves it unchanged |
| AdminModel.SampleAddress | models/Admin.ts:23-26 | (example) `admin@streamflix.com` is accepted |
| AdminModel.EmailError | models/Admin.ts:17-27 | an email gets a message exactly when it is empty or not accepted by the pattern |
| AdminModel.PasswordError | models/Admin.ts:28-33 | a password gets a message exactly when it is empty or shorter than 6 characters |
| AdminModel.RoleError | models/Admin.ts:34-38 | a role gets a message exactly when it is not `admin` |
| AdminModel.ValidateAdmin | models/Admin.ts:17-38 | there are no messages exactly when every rule of the admin schema holds |
| AdminModel.AdminDocument.constructor | models/Admin.ts:17-38 | a new document has the normalised email, the given password, the role or its default, and a modified password |
| AdminModel.AdminDocument.PreSave | models/Admin.ts:46-57 | a modified password is replaced by its hash, an unmodified one is left alone |
| AdminModel.AdminDocument.Save | models/Admin.ts:17-57 | validation runs first, on the plaintext; a failing document keeps its password; a passing one is hashed once and is no longer modified |
| AdminModel.ComparePassword | models/Admin.ts:60-68 | a candidate matches exactly when a stored hash is present and the comparison returns true |
| AdminModel.CompareFailsClosed | models/Admin.ts:65-67 | a comparison that throws is a mismatch |
| AuthService.VerifyToken | services/authService.ts:42-52 | the decoded claims exactly when verification succeeds, nothing when it throws |
| AuthService.GenerateToken | services/authService.ts:33-37 | a token for the admin's id with the role `admin`, nothing exactly when signing throws |
| AuthService.FindByEmail | services/authService.ts:62-64 | a stored admin with the normalised email, or nothing exactly when none has it |
| AuthService.Login | services/authService.ts:57-102 | a failure is one of the two login messages; a success is an admin with that email whose password matched, its details, and a token signed for it |
| AuthService.LoginFailuresAlike | services/authService.ts:66-81 | an unknown email and a wrong password get the same message |
| AuthService.LoginFindsTheAdmin | services/authService.ts:84-94 | with unique emails, a matching password logs in as the admin with that email |
| AuthService.NewAdmin | services/authService.ts:122-126 | a new admin has the normalised email, the hashed password, the role `admin` and the id and timestamps of its time |
| AuthService.CredentialStore.constructor | services/authService.ts:107-147 | the admin collection starts empty and well formed |
| AuthService.CredentialStore.Register | services/authService.ts:107-147 | a taken email is refused; credentials the schema refuses fail; otherwise exactly one new admin is appended and the answer is its token and details; emails stay unique and stored emails normalised |
| AuthService.RegisteredCanLogIn | services/authService.ts:107-147 | the credentials just registered log in as the new admin |
| AuthMiddleware.BearerToken | lib/auth-middleware.ts:21-28 | a token exactly when the header is `Bearer ` followed by it |
| AuthMiddleware.CarriedTokenUnique | lib/auth-middleware.ts:28 | a header carries at most one token |
| AuthMiddleware.Authenticate | lib/auth-middleware.ts:14-59 | authorised exactly when the header carries a token that verifies with the role `admin`, the caller being its claims; every refusal has one of the three messages |
| AuthMiddleware.NoTokenRefused | lib/auth-middleware.ts:21-26 | no bearer token gives "No token provided" |
| AuthMiddleware.RejectedTokenRefused | lib/auth-middleware.ts:31-37 | a token that fails verification gives "Invalid or expired token" |
| AuthMiddleware.NonAdminRefused | lib/auth-middleware.ts:41-46 | a verified token without the admin role gives "Unauthorized access" |
| AuthMiddleware.AdminTokenAccepted | lib/auth-middleware.ts:48-51 | a verified admin token is let through with its claims |
| AuthMiddleware.LoginTokenPassesGate | lib/auth-middleware.ts:14-59 | the token a login issues passes the gate as the logged-in admin |
| AuthMiddleware.UnauthorizedResponse | lib/auth-middleware.ts:64-69 | 401, an error answer with the message or "Unauthorized" |
| AuthMiddleware.ForbiddenResponse | lib/auth-middleware.ts:74-79 | 403, an error answer with the message or "Forbidden" |
| MoviesRoute.ToView | app/api/movies/route.ts:30-40 | a view shows the stored fields as they are and the id as its 24-character string |
| MoviesRoute.ViewShowsMovie | app/api/movies/route.ts:30-40 | a movie's view shows its stored fields, and its id string casts back to its id |
| MoviesRoute.Views | app/api/movies/route.ts:30-40 | one view per movie, in order |
| MoviesRoute.PickSource | app/api/movies/route.ts:19-27 | the first truthy parameter of search, genre and year picks the query, and with none every movie is listed |
| MoviesRoute.Fetch | app/api/movies/route.ts:19-27 | the picked query fails exactly for a year that parses to `NaN` |
| MoviesRoute.Get | app/api/movies/route.ts:10-56 | 200 with the views of the picked query's result exactly when it does not fail, otherwise 500 "Failed to fetch movies" |
| MoviesRoute.GetWithoutFilters | app/api/movies/route.ts:19-27 | without truthy parameters a GET lists every movie newest first |
| MoviesRoute.GetByYearShowsThatYear | app/api/movies/route.ts:23-24 | a GET by a year lists exactly that year's movies newest first |
| MoviesRoute.ParseScalar | app/api/movies/route.ts:86-87 | `parseInt` of a number below 10^21 in magnitude is the number, of a larger one its signed leading digit; of a string the parsed string |
| MoviesRoute.ProviderOrLocal | app/api/movies/route.ts:95 | the supplied provider when truthy, otherwise `local` |
| MoviesRoute.Submission | app/api/movies/route.ts:82-97 | the submission carries the body's strings as sent, the parsed numbers, and a provider that is never absent: the supplied one when truthy, otherwise `local` |
| MoviesRoute.MissingProviderIsLocal | app/api/movies/route.ts:93-96 | a POST without a provider, or with an empty one, submits `local`, which the schema reads as the local provider |
| MoviesRoute.PostCheck | app/api/movies/route.ts:62-97 | the gate's refusal gives 401 with its message; an unreadable body 500; a falsy field 400; a `NaN` year or duration 500; otherwise exactly the submission handed to `createMovie` |
| MoviesRoute.SubmissionIsComplete | app/api/movies/route.ts:74-96 | what reaches `createMovie` has every required field non-empty and a named provider |
| MoviesRoute.ZeroDurationRefused | app/api/movies/route.ts:74-79 | a duration of `0` or `""` is refused with 400 |
| MoviesRoute.Post | app/api/movies/route.ts:62-126 | 201 with the new movie's view exactly when the checks pass and the schema accepts, the store then holding one more movie; answers before the write are the checks'; a refused submission is 500 and the store is unchanged |
| LoginRoute.PostLogin | app/api/auth/login/route.ts:8-46 | 500 for an unreadable body; 400 without a login attempt when email or password is falsy; 401 with the service's message; 200 with the service's session |
| LoginRoute.SuccessIsStoredAdmin | app/api/auth/login/route.ts:31-38 | a 200 answer carries a stored admin whose password matched, and a token signed for it |
| LoginRoute.RefusalsAlike | app/api/auth/login/route.ts:24-29 | an unknown email and a wrong password get the same 401 answer |
| AdminMoviesPage.EmptyForm | app/admin/movies/page.tsx:63-80 | the reset form has every text field empty and the current year |
| AdminMoviesPage.RequestBody | lib/api-client.ts:160 | the body the route reads from the sent payload has every field present and the numbers as JSON numbers |
| AdminMoviesPage.EmptyFormRefused | app/admin/movies/page.tsx:63-112 | a reset form sent as it is gets 400 "All fields are required" from the route's required-field check, before the schema sees it, and the page alerts that message; the payload would fail the schema too, the missing title first |
| AdminMoviesPage.FormOf | app/admin/movies/page.tsx:164-179 | the edit form shows the movie's fields; its duration text, written by `toString`, reads back as the duration below 10^21 in magnitude and as its signed leading digit from there on |
| AdminMoviesPage.DurationOrZero | app/admin/movies/page.tsx:90 | the parsed duration, or 0 for `NaN` |
| AdminMoviesPage.Payload | app/admin/movies/page.tsx:85-100 | the payload always names the provider `local` and carries the parsed duration |
| AdminMoviesPage.UnchangedEditResends | app/admin/movies/page.tsx:120-135 | saving an edit form left as it was opened sends the movie back unchanged, provider `local`, when the duration is below 10^21 in magnitude; a larger duration comes back as a single digit |
| AdminMoviesPage.Prepend | app/admin/movies/page.tsx:106 | the created movie comes first, followed by the old list |
| AdminMoviesPage.ReplaceById | app/admin/movies/page.tsx:140 | every entry with the id is replaced and every other entry kept, in place |
| AdminMoviesPage.ReplaceOnlyEntry | app/admin/movies/page.tsx:140 | with the id held by one entry only, replacing by id replaces exactly that entry |
| AdminMoviesPage.RemoveById | app/admin/movies/page.tsx:156 | no entry keeps the id, every other entry is kept as often as before, in order |
| AdminMoviesPage.FilterMovies | app/admin/movies/page.tsx:183-187 | exactly the movies whose title or genre contains the query ignoring case, in list order |
| AdminMoviesPage.EmptyQueryKeepsAll | app/admin/movies/page.tsx:183-187 | an empty search shows the whole list |
| AdminMoviesPage.AlertText | app/admin/movies/page.tsx:110 | the API's error when truthy, otherwise the fallback message |
| AdminMoviesPage.AdminMoviesPage.constructor | app/admin/movies/page.tsx:20-44 | the page starts with no movies, an empty query and form, and every dialog closed |
| AdminMoviesPage.AdminMoviesPage.HandleAddMovie | app/admin/movies/page.tsx:82-113 | the payload of the form is sent; a created movie is prepended, the add dialog closed and the form reset; a failure is alerted with the list and form kept |
| AdminMoviesPage.AdminMoviesPage.HandleEditMovie | app/admin/movies/page.tsx:115-148 | nothing without an edited movie; otherwise the payload is sent for its id, and an updated movie replaces the entries with that id, the dialog closed and the form reset; a failure is alerted |
| AdminMoviesPage.AdminMoviesPage.HandleDeleteMovie | app/admin/movies/page.tsx:150-160 | nothing unless confirmed; an accepted deletion removes exactly the entries with that id; a failure is alerted with the list kept |
| AdminMoviesPage.AdminMoviesPage.OpenEditDialog | app/admin/movies/page.tsx:162-181 | the movie becomes the edited one, the form shows its fields (the duration as `toString` writes it) and the edit dialog opens |
| AdminMoviesPage.AdminMoviesPage.SetSearchQuery | app/admin/movies/page.tsx:21 | the table shows the movies matching the new query |
| SearchBox.SearchResults | components/search.tsx:21-29 | nothing for a blank query; otherwise exactly the catalogue entries whose title contains the untrimmed query ignoring case, in catalogue order |
| SearchBox.CaseInsensitive | components/search.tsx:27 | lower-casing the query does not change the results |
| SearchBox.UntrimmedQuery | components/search.tsx:22-27 | (example) the query is matched untrimmed: "Dune " does not find "Dune" |
| SearchBox.Search.SetQuery | components/search.tsx:21-29 | typing updates the query and recomputes the results |
| SearchBox.Search.Toggle | components/search.tsx:41 | the icon opens or closes the box, nothing else changes |

## Left out

- The database connection (`dbConnect`), database errors and their `catch` branches. The collections are in memory; a write cannot fail for the database's sake.
- Concurrency between requests. Each route call runs to completion on the store.
- MovieService.SearchMovies: `$regex` is modelled for patterns without regular-expression metacharacters (a `LiteralPattern` requirement), where it is a case-insensitive substring test. The pattern language itself is not modelled.
- MovieService.GetMoviesByGenre: the same `LiteralPattern` requirement on the genre pattern.
- Text is ASCII: `trim`, `toLowerCase` and `\w` are not modelled beyond ASCII.
- Text.ParseInt: only decimal `parseInt`; a `0x` prefix (read as hexadecimal by `parseInt` without a radix) is not modelled. The value is the exact integer the digits denote: `parseInt`'s rounding of a digit run beyond 2^53 to the nearest double ("999999999999999999999" gives 1e21) is not modelled.
- MoviesRoute.ParseScalar: a JSON number is the integer `JSON.parse` produced; the rounding of integers beyond 2^53 to the nearest double is not modelled, nor are the fraction digits the exponent notation shows after the leading digit (`parseInt` stops before them).
- AdminModel.NormalizeEmail: its own contract states only that the result is trimmed and has no upper-case letter; that it is exactly the lower-cased email trimmed is stated by `AdminModel.SettersCommute`, kept apart so that the many contracts mentioning the stored email do not carry it.
- AdminMoviesPage.FormOf: the form's `video.provider`, always `local`, is not a field of the model's form, since the payload names `local` in any case.
- LoginRoute.PostLogin: the body's `email` and `password` are strings or absent; other JSON values are not modelled, in particular an object such as `{"$ne": null}` as the email, which `findOne` would read as a query operator and which could select an admin with a different email, or a number as the password, which makes `bcrypt.compare` throw (a mismatch). `AuthService.Login`'s contract describes string credentials only.
- MoviesRoute.PostCheck: JSON values other than strings in the string fields, and other than strings and integers in `year` and `duration` (floats, booleans, objects), are not modelled.
- MovieService.MovieStore.UpdateMovie: `media` and `video` are replaced as whole values; a partial nested object, which `$set` would also replace whole and then fail on the missing required path, is not modelled separately.
- `getAdminById` (services/authService.ts:152-161) is not modelled: no route in the modelled core calls it.
- The `PUT`/`DELETE /api/movies/[id]` routes and the registration route are not part of this model. The service operations they call are.
- The page's `loadMovies`, the `loading` flag, the authentication redirect, the rendering, and the intermediate `true` value of `submitting` during the API call are not modelled.
- The client's API helpers, `confirm()` and `alert()` are parameters or a recorded message; the network is not modelled.
- `jwt.sign`, `jwt.verify`, `bcrypt.genSalt`, `bcrypt.hash` and `bcrypt.compare` are parameters. The salt is one given value, a hash cannot fail, and extra token claims (`iat`, `exp`) are not modelled.
- The "Authentication failed" branch of `authMiddleware` is not modelled: nothing in its `try` block can throw once `verifyToken` catches its own errors.
- AdminModel.AdminDocument.Save: every path is validated on each save, which is exact for the new documents the service saves; Mongoose's skipping of unmodified paths on later saves is not modelled.
- AdminMoviesPage.Payload: the form's year is an integer; the input's string value, which `Number()` converts, is not modelled.
- SearchBox.Search: the catalogue is the fixed mock list given to the constructor; the focus effect and the rendering are not modelled.
- MovieService.MovieStore.CreateMovie: requires the store's clock below 2^96, the number of distinct ObjectIds, as do `UpdateMovie`, `MoviesRoute.Post` and `AuthService.CredentialStore.Register`.
- Timestamps are values of a logical clock, not dates. Ids are the creation time written as 24 hexadecimal digits, which makes them unique within a store; Mongo's ObjectId layout (time, random value, counter) is not modelled.

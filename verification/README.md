# movie_mania — a Dafny model of the movie store, its search, and its two forms

movie_mania is a small single-page React application with three pages:
- a home page that lists a catalogue of movies with a case-insensitive search;
- an "add movie" page whose form creates a movie or, when the user clicked
  *Edit* on a card, edits one;
- a reviews page whose form collects reviews in a list that lives only as long
  as the page.

This project models the logic behind those pages as pure Dafny functions over
immutable data and proves what the application promises:
- the movie store hands out fresh ids and keeps them unique;
- search returns exactly the matching movies, in catalogue order, ignoring case;
- each form's validation accepts exactly the inputs described by its rules,
  with the source's messages;
- a valid submission stores the trimmed text and the parsed rating, and
  resets the form;
- editing a stored movie and saving it unchanged leaves the store unchanged;
- every reachable state of the application keeps the store well formed.

Modules, one per file, follow the program's structure:

| module | file | models |
|---|---|---|
| `Optional` | optional.dfy | an option type (`null` / absent record key) |
| `Seqs` | seqs.dfy | `Array.prototype.filter` and `map`, the subsequence relation |
| `JsString` | js_string.dfy | `trim`, `toLowerCase`, `includes`, ECMAScript white space |
| `JsNumber` | js_number.dfy | `parseInt` and `parseFloat`, with exact reals for numbers |
| `Patterns` | patterns.dfy | the poster-URL and e-mail regular expressions |
| `Forms` | forms.dfy | the shared "field is required" check |
| `MovieStore` | movie_store.dfy | `Movie`, the seed catalogue, `addMovie`, `updateMovie`, `deleteMovie` |
| `Catalogue` | catalogue.dfy | the home-page search filter and its result banner |
| `MovieForm` | movie_form.dfy | the add/edit movie form: validation, submit, cancel, pre-fill |
| `Reviews` | reviews.dfy | the review form: validation, prepend-on-submit, success notice |
| `App` | app.dfy | the page selector, the editing slot, events, and the store invariant |

The application as a whole is a state machine. `App.AppState` holds:
- the current page, the movie list and the movie being edited (the three
  `useState` hooks of `App`);
- the search query (state of the home page);
- the movie form and its errors (state of the add page);
- the review form, its errors, the review list and the success flag (state of
  the reviews page).

`App.Step` applies one user event. `App.Run` applies a sequence of events.

React rebuilds a page component's state whenever that page is entered from
another one, and `App.Enter` models this remount:
- entering the home page clears the query;
- entering the add page resets the movie form, then pre-fills it from the
  movie being edited;
- entering the reviews page empties the review list.

An event aimed at a page that is not on screen changes nothing.

Behaviour of the submit handlers that the model keeps, for whatever text
the handler receives (the browser's own checks on `type="number"`, `"url"`
and `"email"` inputs are not modelled; see "Left out"):
- The poster URL is validated as received but stored trimmed. "http:// " passes
  `^https?:\/\/.+` and is stored as "http://", which no longer matches
  (`Patterns.TrimmedPosterMayNotMatch`). Editing such a movie later makes its
  own validation fail. `App.EditThenSaveUnchanged` therefore needs the stored
  URL to match the pattern.
- `updateMovie` with an id that is no longer in the store changes nothing and
  still clears the editing slot (`App.StaleEditDropped`).
- The review rating is stored as the raw text the handler receives. Only its
  `parseInt` value is range-checked, so the handler accepts "7.9" and "7abc"
  and keeps them verbatim.
- Reviews are component state of the reviews page. Navigating away and back
  discards them.
- `parseInt` accepts a `0x` prefix. The handler therefore reads the review
  rating "0xA" as 10 and accepts it.

## Model

| member | source | states |
|---|---|---|
| MovieStore.InitialMoviesIds | src/App.tsx:17-58 | the seed catalogue has five movies with ids 1 to 5 in order, so ids are unique and the largest is 5 |
| MovieStore.InitialMoviesWellFormed | src/App.tsx:17-58 | every seed movie has non-blank trimmed text fields, an http(s) poster URL and a rating between 0 and 10 |
| MovieStore.MaxId | src/App.tsx:69 | `Math.max(...ids, 0)` is at least 0, bounds every id, and is either 0 or the id of some movie |
| MovieStore.NextId | src/App.tsx:69 | the id a new movie gets is positive, larger than every id in the store, and either 1 or one more than an existing id |
| MovieStore.AddMovie | src/App.tsx:66-72 | adding appends exactly one movie, keeps the existing movies in order, and gives the new movie a fresh id and the submitted data |
| MovieStore.AddKeepsUniqueIds | src/App.tsx:66-72 | adding a movie keeps ids unique |
| MovieStore.AddKeepsWellFormed | src/App.tsx:66-72 | adding well-formed data to a well-formed store keeps every record well formed |
| MovieStore.UpdateMovie | src/App.tsx:74-79 | an update keeps length, positions and ids, replaces the data of the records with the given id, and leaves every other record alone |
| MovieStore.UpdateKeepsUniqueIds | src/App.tsx:74-79 | an update keeps ids unique |
| MovieStore.UpdateKeepsWellFormed | src/App.tsx:74-79 | updating with well-formed data keeps every record well formed |
| MovieStore.UpdateAbsent | src/App.tsx:74-79 | updating an id that is not in the store changes nothing |
| MovieStore.UpdateOverrides | src/App.tsx:74-79 | two updates of the same id are the same as the second update alone |
| MovieStore.UpdateWithSameData | src/App.tsx:74-79 | when ids are unique, writing a stored record's own data back under its id leaves the store unchanged |
| MovieStore.DeleteMovie | src/App.tsx:81-85 | an unconfirmed delete changes nothing; a confirmed one keeps exactly the movies with another id, and none with the deleted id is left |
| MovieStore.DeleteIsSubsequence | src/App.tsx:81-85 | the store after a delete is a subsequence of the store before, so order is kept |
| MovieStore.SubsequenceKeepsUniqueIds | src/App.tsx:83 | dropping movies from a store with unique ids keeps ids unique |
| MovieStore.DeleteKeepsUniqueIds | src/App.tsx:81-85 | a delete keeps ids unique |
| MovieStore.DeleteAbsent | src/App.tsx:81-85 | deleting an id that is not in the store changes nothing, confirmed or not |
| MovieStore.DeleteRemovesOne | src/App.tsx:81-85 | with unique ids, a confirmed delete of a present id shrinks the store by exactly one |
| MovieStore.DeleteIdempotent | src/App.tsx:81-85 | deleting the same id twice is the same as deleting it once |
| MovieStore.DeleteKeepsWellFormed | src/App.tsx:81-85 | a delete keeps every record well formed |
| Catalogue.Search | src/components/HomePage.tsx:19-22 | a movie is in the result iff it is in the catalogue and the lower-cased query occurs in its lower-cased title or genre; the result is never longer than the catalogue |
| Catalogue.SearchIsSubsequence | src/components/HomePage.tsx:19-22 | the result is a subsequence of the catalogue, so catalogue order is kept |
| Catalogue.SearchEmptyQuery | src/components/HomePage.tsx:19-22 | the empty query shows the whole catalogue |
| Catalogue.SearchIgnoresCase | src/components/HomePage.tsx:19-22 | two queries that lower-case to the same text give the same result |
| Catalogue.SearchLowerCaseQuery | src/components/HomePage.tsx:19-22 | searching for the lower-cased query gives the same result as searching for the query |
| Catalogue.SearchNarrows | src/components/HomePage.tsx:19-22 | when one query contains another, every movie found by the longer one is also found by the shorter one |
| Catalogue.Home | src/components/HomePage.tsx:42-54 | the home view shows the search result, a banner only when the query is non-empty, and the empty notice exactly when nothing matches |
| Catalogue.FoundBanner | src/components/HomePage.tsx:44 | the banner starts with "Found " and ends in "s" exactly when the count is not 1 |
| Catalogue.FoundBannerCount | src/components/HomePage.tsx:42-46 | the text after "Found " reads back, as an integer prefix, as the count it was built from |
| Catalogue.SearchEmptyIffNoMatch | src/components/HomePage.tsx:50-54 | "No movies found" is shown iff no catalogue movie matches the query |
| JsString.Trim | src/components/AddMoviePage.tsx:79-82 | the trimmed text is empty iff the input is all white space or line terminators, and otherwise neither starts nor ends with one |
| JsString.TrimPadded | src/components/AddMoviePage.tsx:79-82 | trimming text surrounded by white space gives back exactly that text, when its own ends are not white space |
| JsString.TrimIdempotent | src/components/AddMoviePage.tsx:79-82 | trimming twice is the same as trimming once |
| JsString.TrimmedIsFixedPoint | src/components/AddMoviePage.tsx:79-82 | a text is unchanged by trimming iff it neither starts nor ends with white space |
| JsString.ToLower | src/components/HomePage.tsx:20-21 | lower-casing keeps the length, maps A-Z to a-z and leaves every other character alone |
| JsString.Includes | src/components/HomePage.tsx:20-21 | `includes` holds iff the needle occurs at some position of the haystack |
| JsNumber.ParseIntDecimal | src/components/ReviewsPage.tsx:87 | `parseInt` of white space, an optional sign and the decimal numeral of n, followed by a non-digit (and, after "0", not by x), is the signed n |
| JsNumber.ParseInt | src/components/ReviewsPage.tsx:87 | `parseInt` gives a number only when a decimal digit follows the leading white space and sign, and a negative number only after a minus sign |
| JsNumber.ParseFloatOf | src/components/AddMoviePage.tsx:61 | `parseFloat` skips leading white space and one sign, then negates the value of the unsigned literal that follows (one starting with a digit or a point) exactly when the sign is a minus |
| JsNumber.UnsignedDecimalOf | src/components/AddMoviePage.tsx:61 | the unsigned literal made of the numeral of n, a point and the k-digit fraction f, followed by anything but a digit or exponent, reads as n + f / 10^k |
| JsNumber.ParseFloatDecimal | src/components/AddMoviePage.tsx:61 | `parseFloat` of such a literal is that exact value |
| JsNumber.UnshiftIsDivision | src/components/AddMoviePage.tsx:61 | dividing by ten k times is dividing by 10^k, so the fraction digits f of length k are worth f / 10^k |
| JsNumber.ParseFloat | src/components/AddMoviePage.tsx:61 | `parseFloat` gives a value other than NaN only when a digit, a point or "Infinity" follows the leading white space and sign, and an infinity carries that sign |
| JsNumber.PointDigit | src/components/AddMoviePage.tsx:61 | the literal "." followed by one digit d, with no integer part, reads as d tenths |
| JsNumber.ParseFloatNaN | src/components/AddMoviePage.tsx:61-62 | `parseFloat` of text that starts (after white space) with anything but a digit, sign, point or "Infinity" is NaN |
| Patterns.PosterPatternIsShape | src/components/AddMoviePage.tsx:54 | the poster test holds iff the text is "http://" or "https://" followed by at least one character that is not a line terminator |
| Patterns.PosterPatternAccepts | src/components/AddMoviePage.tsx:54 | "http://x" and "https://x/y.jpg" pass |
| Patterns.PosterPatternRejects | src/components/AddMoviePage.tsx:54 | "ftp://x", a bare "http://", and " http://x" with a leading space fail |
| Patterns.TrimmedPosterHasWebScheme | src/components/AddMoviePage.tsx:82 | a poster URL that passes the test still starts with "http://" or "https://" after trimming |
| Patterns.TrimmedPosterMayNotMatch | src/components/AddMoviePage.tsx:82 | "http://" or "https://" followed by white space whose first character is not a line terminator passes the test, but its trimmed stored form (the bare scheme) does not |
| Patterns.EmailPatternIsSplit | src/components/ReviewsPage.tsx:73 | the e-mail test holds iff the text is local@domain.tld with non-empty parts free of white space and "@" |
| Patterns.EmailPatternHasNoWhiteSpace | src/components/ReviewsPage.tsx:73 | an address that passes has no white space, so trimming it changes nothing |
| Patterns.EmailPatternAccepts | src/components/ReviewsPage.tsx:73 | "a@b.c" passes |
| Patterns.EmailPatternRejects | src/components/ReviewsPage.tsx:73 | "a@b", "a@.c" and "a b@c.d" fail |
| Forms.RequiredError | src/components/AddMoviePage.tsx:40-50 | a required field reports its message exactly when it is empty or all white space |
| MovieForm.PosterUrlError | src/components/AddMoviePage.tsx:52-56 | the poster error is "Poster URL is required" for a blank value and "Please enter a valid URL" for a non-blank value that fails the pattern, and there is no error otherwise |
| MovieForm.PosterUrlPasses | src/components/AddMoviePage.tsx:52-56 | the poster field passes iff the pattern matches, since a matching text is never blank |
| MovieForm.RatingError | src/components/AddMoviePage.tsx:58-65 | the rating error is "Rating is required" for empty text and "Rating must be between 0 and 10" when `parseFloat` is NaN or outside 0 to 10 |
| MovieForm.ValidateMovieForm | src/components/AddMoviePage.tsx:37-69 | each of the five fields gets an error exactly when its own rule fails, with that rule's message |
| MovieForm.ValidMovieFormIff | src/components/AddMoviePage.tsx:37-69 | the form is valid iff title, genre and description are not blank, the poster matches, and the rating parses to a number from 0 to 10 |
| MovieForm.SubmittedData | src/components/AddMoviePage.tsx:78-84 | the data of a valid form is well formed, its texts are the trimmed fields, and its rating is the value `parseFloat` reads |
| MovieForm.Submit | src/components/AddMoviePage.tsx:71-104 | an invalid form keeps its text and shows its errors, and nothing is sent; a valid form sends an update for the edited id, or an add when nothing is edited, with the submitted data, then resets the form and goes home |
| MovieForm.Cancel | src/components/AddMoviePage.tsx:106-119 | cancel sends nothing, clears the edit exactly when one is open, resets the form and goes home |
| MovieForm.Prefill | src/components/AddMoviePage.tsx:25-35 | with a movie to edit, the form fields become its fields and the rating its text; errors are kept; with none, nothing changes |
| MovieForm.StoredTextAccepted | src/components/AddMoviePage.tsx:40-50 | a stored trimmed non-empty text passes the required check and trims to itself |
| MovieForm.EditRoundTrip | src/components/AddMoviePage.tsx:25-90 | pre-filling from a well-formed movie whose poster matches and whose rating text parses back gives a valid form whose submission is an update carrying exactly that movie's id and data |
| MovieForm.DecimalRatingChecked | src/components/AddMoviePage.tsx:58-65 | a rating typed as white space, a sign and an unsigned literal starting with a digit or a point passes the range check iff the signed value lies between 0 and 10 |
| MovieForm.DecimalTextChecked | src/components/AddMoviePage.tsx:58-65 | a rating written as the numeral of n (no leading zeros), a point and k fraction digits f passes iff n + f / 10^k is at most 10 |
| MovieForm.RatingTenAccepted | src/components/AddMoviePage.tsx:58-65 | the rating "10" passes |
| MovieForm.RatingDecimalAccepted | src/components/AddMoviePage.tsx:58-65 | the rating "8.5" passes |
| MovieForm.RatingLeadingPointAccepted | src/components/AddMoviePage.tsx:58-65 | the rating ".5", with no integer part, passes |
| MovieForm.RatingLeadingPointRejected | src/components/AddMoviePage.tsx:58-65 | the rating " -.5" reads as -0.5 and gets the range message |
| MovieForm.RatingDecimalRejected | src/components/AddMoviePage.tsx:58-65 | the rating "10.1" is out of range |
| MovieForm.RatingMissingOrNaN | src/components/AddMoviePage.tsx:58-65 | the rating "" is required and "abc" is out of range |
| Reviews.EmailError | src/components/ReviewsPage.tsx:70-76 | the e-mail error is "Email is required" for a blank value and "Please enter a valid email address" when it is not local@domain.tld, and there is no error otherwise |
| Reviews.EmailPasses | src/components/ReviewsPage.tsx:70-76 | the e-mail field passes iff the pattern matches |
| Reviews.RatingError | src/components/ReviewsPage.tsx:84-91 | the rating error is "Rating is required" for empty text and "Rating must be between 1 and 10" when `parseInt` is NaN or outside 1 to 10 |
| Reviews.ValidateReview | src/components/ReviewsPage.tsx:61-95 | each of the four fields gets an error exactly when its own rule fails, with that rule's message |
| Reviews.ValidReviewIff | src/components/ReviewsPage.tsx:61-95 | a review is valid iff name and movie title are not blank, the e-mail matches, and the rating's integer prefix is from 1 to 10 |
| Reviews.NewReview | src/components/ReviewsPage.tsx:104-111 | a review built from a valid form has trimmed non-empty name and title, the e-mail as typed and matching the pattern (it has nothing to trim), the raw rating text whose integer prefix is from 1 to 10, and the given id and time |
| Reviews.SubmitReview | src/components/ReviewsPage.tsx:97-134 | an invalid form only shows its errors; a valid one puts the review built from the form (NewReview) in front of the list with the others kept in order, resets the form, clears errors and shows the notice |
| Reviews.HideSuccess | src/components/ReviewsPage.tsx:133 | the timeout clears only the success notice |
| Reviews.SubmitKeepsStoredReviews | src/components/ReviewsPage.tsx:97-134 | every review in the list keeps the stored-review invariant across a submit |
| Reviews.DecimalRatingChecked | src/components/ReviewsPage.tsx:84-91 | a rating typed as white space, a sign and the decimal numeral of n passes iff the signed n lies between 1 and 10, when the numeral is followed by anything but a digit or, after a lone 0, an x or X (which would make it hexadecimal) |
| Reviews.NumeralRatingChecked | src/components/ReviewsPage.tsx:84-91 | the decimal numeral of n passes iff 1 <= n <= 10 |
| Reviews.RatingBoundaryExamples | src/components/ReviewsPage.tsx:84-91 | "1" and "10" pass; "0" and "11" are out of range |
| App.Enter | src/App.tsx:98-117 | navigating sets the page and keeps store and edit slot; re-entering the same page changes nothing; entering another page rebuilds that page's state (query cleared, movie form reset then pre-filled, review list emptied) and leaves the other pages' state alone |
| App.Perform | src/App.tsx:66-79 | no request leaves the store unchanged; an add request appends the data under the next id; an update request replaces the data of every movie with that id, keeping ids, order and all other movies |
| App.Conclude | src/App.tsx:66-94 | a form outcome applies its request to the store, clears the edit slot on cancel or update, goes home when asked, and leaves the reviews page alone |
| App.Save | src/components/AddMoviePage.tsx:71-104 | saving an invalid form keeps the page and store and shows the errors; saving a valid one adds or updates the submitted data, clears the edit slot, resets the form and shows the full catalogue |
| App.Edit | src/App.tsx:87-90 | clicking Edit on a listed movie opens the add page holding it, pre-filled; a movie not listed cannot be clicked |
| App.Discard | src/components/AddMoviePage.tsx:106-119 | cancel keeps the store, clears the edit slot, resets the form and shows the full catalogue |
| App.Step | src/App.tsx:61-117 | of all events, only a save and a confirmed delete can change the store |
| App.OffPageEventIgnored | src/App.tsx:101-117 | an event that belongs to a page not on display changes nothing, since only the current page's handlers exist |
| App.OnlyEditSaveCancelChangeEditing | src/App.tsx:63-94 | only Edit, a save and a cancel change the movie being edited |
| App.Run | src/App.tsx:61-85 | a sequence of events with no save and no delete leaves the store unchanged |
| App.InitialStateInvariant | src/App.tsx:17-63 | the initial state satisfies the invariant |
| App.PerformKeepsStore | src/App.tsx:66-79 | adding or updating with well-formed data keeps ids unique and records well formed |
| App.EnterKeepsInvariant | src/App.tsx:98-117 | navigation keeps the invariant |
| App.EditKeepsInvariant | src/App.tsx:87-90 | opening an edit keeps the invariant |
| App.SaveKeepsInvariant | src/components/AddMoviePage.tsx:71-104 | saving keeps the invariant |
| App.StepKeepsInvariant | src/App.tsx:61-117 | every event keeps the invariant: unique ids, well-formed records, a well-formed edit slot, and stored reviews with trimmed text |
| App.RunKeepsInvariant | src/App.tsx:61-117 | any sequence of events keeps the invariant |
| App.ReachableInvariant | src/App.tsx:17-117 | every state reachable from the start satisfies the invariant |
| App.SaveNewMovie | src/App.tsx:66-72 | saving a valid new movie appends it under a fresh id and returns to the full catalogue |
| App.EditOpensForm | src/App.tsx:87-90 | Edit on a listed movie opens the add page with the form holding that movie's fields |
| App.WriteBackStored | src/App.tsx:74-79 | writing a stored movie back under its own id leaves the store unchanged |
| App.SaveOpenedEdit | src/components/AddMoviePage.tsx:71-104 | saving a just-opened edit of a stored movie updates it to its own data |
| App.EditThenSaveUnchanged | src/App.tsx:74-90 | Edit followed at once by Save leaves the store unchanged, clears the edit slot and returns home, provided the poster matches and the rating's text parses back |
| App.StaleEditDropped | src/App.tsx:74-79 | saving an edit whose movie was deleted meanwhile leaves the store unchanged and clears the edit slot |

## Left out

- Geolocation (ReviewsPage.tsx:39-59), the coordinates display and `toFixed`: browser I/O with no effect on the stored data.
- `console.log` of a submitted review: output only.
- `Date.now()` and `new Date().toLocaleString()` are parameters (`now`, `timestamp`) of the review submit.
- `window.confirm` is the parameter `confirmed` of the delete event.
- `Number.prototype.toString`, used to pre-fill the rating when editing, is the parameter `show`. The round-trip lemmas take "its output parses back to the same number" as a hypothesis.
- The three-second `setTimeout` is the event `SuccessTimeout`. Its timing, and a timeout that fires after the page was left, are not modelled.
- JsNumber.ParseFloat: numbers are exact reals; IEEE-754 rounding in `parseFloat` is not modelled.
- MovieStore.NextId: movie ids are unbounded integers. In the source they are JavaScript numbers (App.tsx:8, 69), so above 2^53 `Math.max(...) + 1` can stop giving a fresh id, and spreading a very large array into `Math.max` throws a RangeError; AddKeepsUniqueIds holds for the model's ids only.
- JsString.ToLower: maps only ASCII A-Z; Unicode case mapping is not modelled.
- JsString: a `string` is a sequence of code points, while JavaScript strings are UTF-16 code units; texts outside the Basic Multilingual Plane have different lengths and positions here.
- The browser's native constraint validation and value sanitisation are not modelled: the rating inputs are `type="number"` with `min`, `max` and `step` (AddMoviePage.tsx:182-185, ReviewsPage.tsx:299-301), the poster input is `type="url"` (AddMoviePage.tsx:205) and the e-mail input is `type="email"` (ReviewsPage.tsx:235), and neither form sets `noValidate`. The submit handlers are modelled for any text they receive; a browser may block a submit or hand the handler a sanitised value (for example "" for "7abc" in a number input) before the handler runs.
- The movie-detail modal (`selectedMovie`) and the presentation components (Navigation, HeroSection, MovieCard, MovieDetailModal): they hold no state of the store or the forms.
- Typing into a form replaces the whole form record (`FillMovieForm`, `FillReviewForm`) rather than one field per keystroke.
- App.Step: its contract states only which events can change the store; what each event does is stated by the members it dispatches to, and OffPageEventIgnored, OnlyEditSaveCancelChangeEditing and StepKeepsInvariant state the rest as separate lemmas.

/** The application shell: the page on display, the movie store, the movie
    being edited, and the state of whichever page is mounted. Every user
    action is an event; `Step` is the app's response to one. */
module App {
  import opened Optional
  import opened JsNumber
  import opened Patterns
  import opened MovieStore
  import opened Catalogue
  import opened MovieForm
  import opened Reviews

  datatype Page = HomePage | AddPage | ReviewsPage

  /** The whole app's state. `query` belongs to the home page, `movieForm`
      to the add/edit page and `reviewsPage` to the reviews page; each is
      rebuilt when its page is entered from another one, since the page's
      component is mounted afresh. */
  datatype AppState = AppState(
    page: Page,
    movies: seq<Movie>,
    editing: Option<Movie>,
    query: string,
    movieForm: FormState,
    reviewsPage: ReviewsState)

  const InitialState := AppState(HomePage, InitialMovies, None, "", InitialFormState, InitialReviewsState)

  /** The user's actions, and the timer that hides the review notice.
      `ClickDelete` carries the answer to the confirmation dialog;
      `SendReview` carries the submission time and its local rendering. */
  datatype Event =
    | GoTo(target: Page)
    | EnterQuery(text: string)
    | ClickEdit(movie: Movie)
    | ClickDelete(id: int, confirmed: bool)
    | FillMovieForm(form: MovieFormData)
    | SaveMovie
    | CancelMovieForm
    | FillReviewForm(reviewForm: ReviewForm)
    | SendReview(now: int, timestamp: string)
    | SuccessTimeout

  /** Showing `p`. Entering it from another page mounts its component
      afresh: the search box is empty, the movie form is pre-filled from the
      movie being edited (its rating written by `show`, standing for
      `Number.prototype.toString`), the review form and list are empty. */
  function Enter(s: AppState, p: Page, show: real -> string): (r: AppState)
    ensures r.page == p && r.movies == s.movies && r.editing == s.editing
    ensures p == s.page ==> r == s
    ensures p != s.page && p == HomePage ==> r.query == []
    ensures p != s.page && p == AddPage && s.editing.None? ==> r.movieForm == InitialFormState
    ensures p != s.page && p == AddPage && s.editing.Some? ==>
      r.movieForm == Prefill(InitialFormState, s.editing, show(s.editing.value.data.rating))
    ensures p != s.page && p == ReviewsPage ==> r.reviewsPage == InitialReviewsState
    ensures p != HomePage ==> r.query == s.query
    ensures p != AddPage ==> r.movieForm == s.movieForm
    ensures p != ReviewsPage ==> r.reviewsPage == s.reviewsPage
  {
    if p == s.page then s
    else match p
      case HomePage => s.(page := p, query := "")
      case AddPage =>
        var ratingText := match s.editing case Some(m) => show(m.data.rating) case None => "";
        s.(page := p, movieForm := Prefill(InitialFormState, s.editing, ratingText))
      case ReviewsPage => s.(page := p, reviewsPage := InitialReviewsState)
  }

  /** The store after a form's request. */
  function Perform(ms: seq<Movie>, request: Option<StoreRequest>): (r: seq<Movie>)
    ensures request.None? ==> r == ms
    ensures request.Some? && request.value.AddRequest? ==>
      r == ms + [Movie(NextId(ms), request.value.data)]
    ensures request.Some? && request.value.UpdateRequest? ==>
      |r| == |ms| &&
      forall i :: 0 <= i < |ms| ==>
        r[i] == if ms[i].id == request.value.id then ms[i].(data := request.value.data) else ms[i]
  {
    match request
    case None => ms
    case Some(AddRequest(d)) => AddMovie(ms, d)
    case Some(UpdateRequest(id, d)) => UpdateMovie(ms, id, d)
  }

  /** Carrying out what the movie form's submit or cancel handler asked
      for: the store update, clearing the edit (an update and a cancel both
      do), the form's new state, and the move to the home page. */
  function Conclude(s: AppState, o: FormOutcome, show: real -> string): (r: AppState)
    ensures r.movies == Perform(s.movies, o.request)
    ensures r.editing == if o.cancelEdit || (o.request.Some? && o.request.value.UpdateRequest?)
      then None else s.editing
    ensures r.page == if o.goHome then HomePage else s.page
    ensures r.reviewsPage == s.reviewsPage
  {
    var cleared := o.cancelEdit || (o.request.Some? && o.request.value.UpdateRequest?);
    var s1 := s.(movies := Perform(s.movies, o.request),
                 editing := if cleared then None else s.editing,
                 movieForm := o.state);
    if o.goHome then Enter(s1, HomePage, show) else s1
  }

  /** The movie form's submit button. A form that fails validation stays
      as typed with its messages shown; a valid one adds its record, or
      writes it over the movie being edited and ends the edit, then the
      home page shows with an empty search. */
  function Save(s: AppState, show: real -> string): (r: AppState)
    requires s.page == AddPage
    ensures !IsValidMovieForm(s.movieForm.form) ==>
      r == s.(movieForm := FormState(s.movieForm.form, ValidateMovieForm(s.movieForm.form)))
    ensures IsValidMovieForm(s.movieForm.form) ==>
      && r.page == HomePage && r.query == [] && r.editing.None?
      && r.movieForm == InitialFormState && r.reviewsPage == s.reviewsPage
      && r.movies == match s.editing
         case None => AddMovie(s.movies, SubmittedData(s.movieForm.form))
         case Some(m) => UpdateMovie(s.movies, m.id, SubmittedData(s.movieForm.form))
  {
    Conclude(s, Submit(s.movieForm, s.editing), show)
  }

  /** The edit button on a listed movie: it becomes the movie being
      edited and the add/edit page opens, pre-filled with it. */
  function Edit(s: AppState, m: Movie, show: real -> string): (r: AppState)
    requires s.page == HomePage
    ensures m !in Search(s.movies, s.query) ==> r == s
    ensures m in Search(s.movies, s.query) ==>
      && r.page == AddPage && r.editing == Some(m) && r.movies == s.movies
      && r.movieForm == Prefill(InitialFormState, Some(m), show(m.data.rating))
      && r.reviewsPage == s.reviewsPage
  {
    if m in Search(s.movies, s.query) then Enter(s.(editing := Some(m)), AddPage, show) else s
  }

  /** The movie form's cancel button: the store is left alone, the edit in
      progress ends, and the home page shows with an empty search. */
  function Discard(s: AppState, show: real -> string): (r: AppState)
    requires s.page == AddPage
    ensures r.movies == s.movies && r.editing.None?
    ensures r.page == HomePage && r.query == [] && r.movieForm == InitialFormState
    ensures r.reviewsPage == s.reviewsPage
  {
    Conclude(s, Cancel(s.movieForm, s.editing), show)
  }

  /** The page an event belongs to, if it belongs to one. */
  function PageOf(e: Event): Option<Page> {
    match e
    case GoTo(_) => None
    case EnterQuery(_) => Some(HomePage)
    case ClickEdit(_) => Some(HomePage)
    case ClickDelete(_, _) => Some(HomePage)
    case FillMovieForm(_) => Some(AddPage)
    case SaveMovie => Some(AddPage)
    case CancelMovieForm => Some(AddPage)
    case FillReviewForm(_) => Some(ReviewsPage)
    case SendReview(_, _) => Some(ReviewsPage)
    case SuccessTimeout => Some(ReviewsPage)
  }

  /** The app's response to one event. An event that belongs to a page
      other than the one on display cannot happen and changes nothing. An
      edit button only exists on a listed movie; a delete event may name any
      id, more than the buttons on display allow, and deleting an id that
      is not stored changes nothing. Typing and the
      notice timer touch only the page's own state. Only saving the movie
      form and confirming a delete change the store. */
  function Step(s: AppState, e: Event, show: real -> string): (r: AppState)
    ensures !e.SaveMovie? && !e.ClickDelete? ==> r.movies == s.movies
    ensures e.ClickDelete? && !e.confirmed ==> r.movies == s.movies
  {
    match e
    case GoTo(p) => Enter(s, p, show)
    case EnterQuery(q) =>
      if s.page == HomePage then s.(query := q) else s
    case ClickEdit(m) =>
      if s.page == HomePage then Edit(s, m, show) else s
    case ClickDelete(id, confirmed) =>
      if s.page == HomePage then s.(movies := DeleteMovie(s.movies, id, confirmed)) else s
    case FillMovieForm(f) =>
      if s.page == AddPage then s.(movieForm := s.movieForm.(form := f)) else s
    case SaveMovie =>
      if s.page == AddPage then Save(s, show) else s
    case CancelMovieForm =>
      if s.page == AddPage then Discard(s, show) else s
    case FillReviewForm(f) =>
      if s.page == ReviewsPage then s.(reviewsPage := s.reviewsPage.(form := f)) else s
    case SendReview(now, timestamp) =>
      if s.page == ReviewsPage then s.(reviewsPage := SubmitReview(s.reviewsPage, now, timestamp)) else s
    case SuccessTimeout =>
      if s.page == ReviewsPage then s.(reviewsPage := HideSuccess(s.reviewsPage)) else s
  }

  /** An event for a page not on display changes nothing. */
  lemma OffPageEventIgnored(s: AppState, e: Event, show: real -> string)
    requires PageOf(e).Some? && PageOf(e).value != s.page
    ensures Step(s, e, show) == s
  {
  }

  /** Only an edit, a save and a cancel start or end an edit. */
  lemma OnlyEditSaveCancelChangeEditing(s: AppState, e: Event, show: real -> string)
    requires !e.ClickEdit? && !e.SaveMovie? && !e.CancelMovieForm?
    ensures Step(s, e, show).editing == s.editing
  {
  }

  /** The state after a sequence of events. */
  function Run(s: AppState, es: seq<Event>, show: real -> string): (r: AppState)
    ensures (forall i :: 0 <= i < |es| ==> !es[i].SaveMovie? && !es[i].ClickDelete?) ==>
      r.movies == s.movies
    decreases |es|
  {
    if es == [] then s else Run(Step(s, es[0], show), es[1..], show)
  }

  /** What holds in every state the app can reach: movie ids are distinct,
      every stored record (and the one being edited) is well formed, and
      every listed review passed validation. */
  predicate Invariant(s: AppState) {
    && UniqueIds(s.movies)
    && AllWellFormed(s.movies)
    && (s.editing.Some? ==> WellFormed(s.editing.value.data))
    && AllStoredReviews(s.reviewsPage.reviews)
  }

  lemma InitialStateInvariant()
    ensures Invariant(InitialState)
  {
    InitialMoviesIds();
    InitialMoviesWellFormed();
  }

  /** A store request from a valid form keeps the store's invariant. */
  lemma PerformKeepsStore(ms: seq<Movie>, request: Option<StoreRequest>)
    requires UniqueIds(ms) && AllWellFormed(ms)
    requires request.Some? ==> WellFormed(request.value.data)
    ensures UniqueIds(Perform(ms, request)) && AllWellFormed(Perform(ms, request))
  {
    match request
    case None =>
    case Some(AddRequest(d)) =>
      AddKeepsUniqueIds(ms, d);
      AddKeepsWellFormed(ms, d);
    case Some(UpdateRequest(id, d)) =>
      UpdateKeepsUniqueIds(ms, id, d);
      UpdateKeepsWellFormed(ms, id, d);
  }

  lemma EnterKeepsInvariant(s: AppState, p: Page, show: real -> string)
    requires Invariant(s)
    ensures Invariant(Enter(s, p, show))
  {
  }

  lemma EditKeepsInvariant(s: AppState, m: Movie, show: real -> string)
    requires Invariant(s) && s.page == HomePage
    ensures Invariant(Edit(s, m, show))
  {
    if m in Search(s.movies, s.query) {
      assert m in s.movies;
    }
  }

  lemma SaveKeepsInvariant(s: AppState, show: real -> string)
    requires Invariant(s) && s.page == AddPage
    ensures Invariant(Save(s, show))
  {
    if IsValidMovieForm(s.movieForm.form) {
      var d := SubmittedData(s.movieForm.form);
      match s.editing
      case None =>
        AddKeepsUniqueIds(s.movies, d);
        AddKeepsWellFormed(s.movies, d);
      case Some(m) =>
        UpdateKeepsUniqueIds(s.movies, m.id, d);
        UpdateKeepsWellFormed(s.movies, m.id, d);
    }
  }

  /** One event keeps the invariant. */
  lemma StepKeepsInvariant(s: AppState, e: Event, show: real -> string)
    requires Invariant(s)
    ensures Invariant(Step(s, e, show))
  {
    match e
    case GoTo(p) =>
      EnterKeepsInvariant(s, p, show);
    case ClickEdit(m) =>
      if s.page == HomePage {
        EditKeepsInvariant(s, m, show);
      }
    case ClickDelete(id, confirmed) =>
      DeleteKeepsUniqueIds(s.movies, id, confirmed);
      DeleteKeepsWellFormed(s.movies, id, confirmed);
    case SaveMovie =>
      if s.page == AddPage {
        SaveKeepsInvariant(s, show);
      }
    case SendReview(now, timestamp) =>
      SubmitKeepsStoredReviews(s.reviewsPage, now, timestamp);
    case _ =>
  }

  lemma {:induction false} RunKeepsInvariant(s: AppState, es: seq<Event>, show: real -> string)
    requires Invariant(s)
    ensures Invariant(Run(s, es, show))
    decreases |es|
  {
    if es != [] {
      StepKeepsInvariant(s, es[0], show);
      RunKeepsInvariant(Step(s, es[0], show), es[1..], show);
    }
  }

  /** Whatever the user does, ids stay distinct, records stay well formed
      and listed reviews stay valid. */
  lemma ReachableInvariant(es: seq<Event>, show: real -> string)
    ensures Invariant(Run(InitialState, es, show))
  {
    InitialStateInvariant();
    RunKeepsInvariant(InitialState, es, show);
  }

  /** Saving a valid form with no edit in progress appends the submitted
      record under an id no stored movie has, and shows the home page with
      an empty search. */
  lemma SaveNewMovie(s: AppState, show: real -> string)
    requires s.page == AddPage && s.editing.None? && IsValidMovieForm(s.movieForm.form)
    ensures var r := Save(s, show);
      && r.movies == s.movies + [Movie(NextId(s.movies), SubmittedData(s.movieForm.form))]
      && !HasId(s.movies, NextId(s.movies))
      && r.page == HomePage && r.query == [] && r.editing.None?
  {
    var d := SubmittedData(s.movieForm.form);
    var r := AddMovie(s.movies, d);
    assert r == s.movies + [Movie(NextId(s.movies), d)];
  }

  /** Editing a listed movie and saving the pre-filled form unchanged
      leaves the store as it was: the update writes back the record it
      read. This needs the rating's text to read back as the rating, and
      the poster URL to match the pattern (a record saved from the text
      "http://" followed by a space does not). */
  lemma EditThenSaveUnchanged(s: AppState, m: Movie, show: real -> string)
    requires Invariant(s) && s.page == HomePage && m in Search(s.movies, s.query)
    requires MatchesPosterPattern(m.data.posterUrl)
    requires show(m.data.rating) != [] && ParseFloat(show(m.data.rating)) == Finite(m.data.rating)
    ensures var r := Save(Edit(s, m, show), show);
      r.movies == s.movies && r.editing.None? && r.page == HomePage
  {
    EditOpensForm(s, m, show);
    SaveOpenedEdit(Edit(s, m, show), show);
    WriteBackStored(s.movies, m);
  }

  /** Clicking edit on a listed movie opens the form pre-filled with it. */
  lemma EditOpensForm(s: AppState, m: Movie, show: real -> string)
    requires Invariant(s) && s.page == HomePage && m in Search(s.movies, s.query)
    ensures var s1 := Edit(s, m, show);
      && s1.page == AddPage && s1.editing == Some(m) && s1.movies == s.movies
      && m in s.movies && WellFormed(m.data)
      && s1.movieForm == Prefill(InitialFormState, Some(m), show(m.data.rating))
  {
    assert m in s.movies;
  }

  /** Writing a stored movie's own record back over it changes nothing. */
  lemma WriteBackStored(ms: seq<Movie>, m: Movie)
    requires UniqueIds(ms) && m in ms
    ensures UpdateMovie(ms, m.id, m.data) == ms
  {
    var i :| 0 <= i < |ms| && ms[i] == m;
    UpdateWithSameData(ms, i);
  }

  /** Saving the form just pre-filled from a stored, well formed movie
      writes that movie's record back over it. */
  lemma SaveOpenedEdit(s: AppState, show: real -> string)
    requires s.page == AddPage && s.editing.Some?
    requires var m := s.editing.value;
      && WellFormed(m.data) && MatchesPosterPattern(m.data.posterUrl)
      && show(m.data.rating) != [] && ParseFloat(show(m.data.rating)) == Finite(m.data.rating)
      && s.movieForm == Prefill(InitialFormState, Some(m), show(m.data.rating))
    ensures var m := s.editing.value;
      var r := Save(s, show);
      r.movies == UpdateMovie(s.movies, m.id, m.data) && r.editing.None? && r.page == HomePage
  {
    var m := s.editing.value;
    EditRoundTrip(InitialFormState, m, show(m.data.rating));
  }

  /** An edit whose movie has meanwhile been deleted is dropped: saving a
      valid form then changes no stored movie, and the edit ends. */
  lemma StaleEditDropped(s: AppState, show: real -> string)
    requires s.page == AddPage && s.editing.Some? && !HasId(s.movies, s.editing.value.id)
    requires IsValidMovieForm(s.movieForm.form)
    ensures var r := Save(s, show);
      r.movies == s.movies && r.editing.None? && r.page == HomePage
  {
    var d := SubmittedData(s.movieForm.form);
    UpdateAbsent(s.movies, s.editing.value.id, d);
  }
}

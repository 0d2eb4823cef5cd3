/** The add/edit movie form: its five text fields, the validation that
    decides which error message each field shows, the record a valid form
    submits, and the submit, cancel and pre-fill handlers. */
module MovieForm {
  import opened Optional
  import opened JsString
  import opened JsNumber
  import opened Patterns
  import opened Forms
  import opened MovieStore

  /** The form's fields, all held as the text typed in. */
  datatype MovieFormData = MovieFormData(
    title: string,
    genre: string,
    description: string,
    posterUrl: string,
    rating: string)

  const EmptyMovieForm := MovieFormData("", "", "", "", "")

  /** The error record: one message slot per field, empty when the
      field's check passes (the record's key is then absent). */
  datatype MovieErrors = MovieErrors(
    title: Option<string>,
    genre: Option<string>,
    description: Option<string>,
    posterUrl: Option<string>,
    rating: Option<string>)

  const NoMovieErrors := MovieErrors(None, None, None, None, None)

  /** The form's state: what is typed in and the messages on display. */
  datatype FormState = FormState(form: MovieFormData, errors: MovieErrors)

  const InitialFormState := FormState(EmptyMovieForm, NoMovieErrors)

  /** A `parseFloat` result the rating check lets through: not NaN, not
      below 0 and not above 10 (so neither infinity). */
  predicate MovieRatingInRange(n: Number) {
    n.Finite? && 0.0 <= n.value <= 10.0
  }

  /** The poster URL's check: required first, then the URL pattern, applied
      to the untrimmed value. */
  function PosterUrlError(s: string): (e: Option<string>)
    ensures e.Some? <==> AllWhiteSpace(s) || !PosterUrlShape(s)
    ensures e.Some? ==>
      e.value == (if AllWhiteSpace(s) then "Poster URL is required" else "Please enter a valid URL")
  {
    PosterPatternIsShape(s);
    if IsBlank(s) then Some("Poster URL is required")
    else if !MatchesPosterPattern(s) then Some("Please enter a valid URL")
    else None
  }

  /** The poster URL passes its check exactly when it matches the
      pattern (a match is never blank). */
  lemma PosterUrlPasses(s: string)
    ensures PosterUrlError(s).None? <==> MatchesPosterPattern(s)
  {
    PosterPatternIsShape(s);
    if MatchesPosterPattern(s) {
      assert s[0] == 'h';
    }
  }

  /** The rating's check: required when nothing at all is typed (white
      space counts as typed), then range-checked after `parseFloat`. */
  function RatingError(s: string): (e: Option<string>)
    ensures e.Some? <==> s == [] || !MovieRatingInRange(ParseFloat(s))
    ensures e.Some? ==>
      e.value == (if s == [] then "Rating is required" else "Rating must be between 0 and 10")
  {
    if s == [] then Some("Rating is required")
    else if !MovieRatingInRange(ParseFloat(s)) then Some("Rating must be between 0 and 10")
    else None
  }

  /** The form's validation: every field's check, each with its own
      message. */
  function ValidateMovieForm(f: MovieFormData): (errors: MovieErrors)
    ensures errors.title.Some? <==> AllWhiteSpace(f.title)
    ensures errors.genre.Some? <==> AllWhiteSpace(f.genre)
    ensures errors.description.Some? <==> AllWhiteSpace(f.description)
    ensures errors.posterUrl.Some? <==> AllWhiteSpace(f.posterUrl) || !PosterUrlShape(f.posterUrl)
    ensures errors.rating.Some? <==> f.rating == [] || !MovieRatingInRange(ParseFloat(f.rating))
    ensures errors.title.Some? ==> errors.title.value == "Title is required"
    ensures errors.genre.Some? ==> errors.genre.value == "Genre is required"
    ensures errors.description.Some? ==> errors.description.value == "Description is required"
    ensures errors.posterUrl.Some? ==>
      errors.posterUrl.value == (if AllWhiteSpace(f.posterUrl) then "Poster URL is required" else "Please enter a valid URL")
    ensures errors.rating.Some? ==>
      errors.rating.value == (if f.rating == [] then "Rating is required" else "Rating must be between 0 and 10")
  {
    MovieErrors(
      RequiredError(f.title, "Title is required"),
      RequiredError(f.genre, "Genre is required"),
      RequiredError(f.description, "Description is required"),
      PosterUrlError(f.posterUrl),
      RatingError(f.rating))
  }

  /** The form passes validation: the error record is empty. */
  predicate IsValidMovieForm(f: MovieFormData) {
    ValidateMovieForm(f) == NoMovieErrors
  }

  /** A form passes exactly when every text field holds something other
      than white space, the poster URL matches the pattern, and the rating
      is present and reads as a number in [0, 10]. */
  lemma ValidMovieFormIff(f: MovieFormData)
    ensures IsValidMovieForm(f) <==>
      && !AllWhiteSpace(f.title) && !AllWhiteSpace(f.genre) && !AllWhiteSpace(f.description)
      && MatchesPosterPattern(f.posterUrl)
      && f.rating != [] && MovieRatingInRange(ParseFloat(f.rating))
  {
    var e := ValidateMovieForm(f);
    assert IsValidMovieForm(f) <==>
      e.title.None? && e.genre.None? && e.description.None? && e.posterUrl.None? && e.rating.None?;
    PosterUrlPasses(f.posterUrl);
  }

  /** The record a valid form submits: the text fields trimmed, the rating
      read with `parseFloat`. It satisfies the store's record invariant. */
  function SubmittedData(f: MovieFormData): (d: MovieData)
    requires IsValidMovieForm(f)
    ensures WellFormed(d)
    ensures d.title == Trim(f.title) && d.genre == Trim(f.genre)
    ensures d.description == Trim(f.description) && d.posterUrl == Trim(f.posterUrl)
    ensures ParseFloat(f.rating) == Finite(d.rating)
  {
    ValidMovieFormIff(f);
    TrimmedIsFixedPoint(f.title);
    TrimmedIsFixedPoint(f.genre);
    TrimmedIsFixedPoint(f.description);
    TrimmedIsFixedPoint(f.posterUrl);
    TrimmedPosterHasWebScheme(f.posterUrl);
    MovieData(Trim(f.title), Trim(f.genre), Trim(f.description), Trim(f.posterUrl),
      ParseFloat(f.rating).value)
  }

  /** The store update a submitted form asks for. */
  datatype StoreRequest = AddRequest(data: MovieData) | UpdateRequest(id: int, data: MovieData)

  /** What a handler leaves behind: the form's new state, the store update
      it asks for, whether it cancels the edit in progress, and whether it
      navigates to the home page. */
  datatype FormOutcome = FormOutcome(
    state: FormState,
    request: Option<StoreRequest>,
    cancelEdit: bool,
    goHome: bool)

  /** Submitting the form while `editing` is the movie being edited, if any. */
  function Submit(st: FormState, editing: Option<Movie>): (r: FormOutcome)
    ensures !IsValidMovieForm(st.form) ==>
      r == FormOutcome(FormState(st.form, ValidateMovieForm(st.form)), None, false, false)
    ensures IsValidMovieForm(st.form) ==>
      && r.state == InitialFormState && r.goHome && !r.cancelEdit
      && r.request.Some? && WellFormed(r.request.value.data)
      && r.request.value.data == SubmittedData(st.form)
      && (r.request.value.UpdateRequest? <==> editing.Some?)
      && (editing.Some? ==> r.request.value.id == editing.value.id)
  {
    if !IsValidMovieForm(st.form) then
      FormOutcome(FormState(st.form, ValidateMovieForm(st.form)), None, false, false)
    else
      var data := SubmittedData(st.form);
      var request := match editing
        case Some(m) => UpdateRequest(m.id, data)
        case None => AddRequest(data);
      FormOutcome(InitialFormState, Some(request), false, true)
  }

  /** The cancel button: the form is cleared, an edit in progress is
      cancelled, and the user is sent home; the store is not touched. */
  function Cancel(st: FormState, editing: Option<Movie>): (r: FormOutcome)
    ensures r.state == InitialFormState && r.request == None && r.goHome
    ensures r.cancelEdit <==> editing.Some?
  {
    FormOutcome(InitialFormState, None, editing.Some?, true)
  }

  /** Pre-filling the form for the movie being edited. `ratingText` is the
      rating's `toString()`; the rest of the form state is kept, and with no
      movie to edit nothing changes. */
  function Prefill(st: FormState, editing: Option<Movie>, ratingText: string): (r: FormState)
    ensures editing.None? ==> r == st
    ensures editing.Some? ==> r.errors == st.errors
    ensures editing.Some? ==>
      var d := editing.value.data;
      r.form == MovieFormData(d.title, d.genre, d.description, d.posterUrl, ratingText)
  {
    match editing
    case None => st
    case Some(m) =>
      FormState(
        MovieFormData(m.data.title, m.data.genre, m.data.description, m.data.posterUrl, ratingText),
        st.errors)
  }

  /** A text field the store holds passes the required-field check and
      trims to itself. */
  lemma StoredTextAccepted(s: string)
    requires IsTrimmedText(s)
    ensures !AllWhiteSpace(s) && Trim(s) == s
  {
    TrimmedIsFixedPoint(s);
  }

  /** Opening a stored movie for editing and saving the pre-filled form
      unchanged asks the store to write back exactly the record it holds,
      provided the rating's text reads back as the rating and the poster
      URL still matches the pattern. */
  lemma EditRoundTrip(st: FormState, m: Movie, ratingText: string)
    requires WellFormed(m.data) && MatchesPosterPattern(m.data.posterUrl)
    requires ratingText != [] && ParseFloat(ratingText) == Finite(m.data.rating)
    ensures var f := Prefill(st, Some(m), ratingText).form;
      IsValidMovieForm(f) && SubmittedData(f) == m.data
    ensures Submit(Prefill(st, Some(m), ratingText), Some(m)).request
      == Some(UpdateRequest(m.id, m.data))
  {
    var d := m.data;
    var f := MovieFormData(d.title, d.genre, d.description, d.posterUrl, ratingText);
    assert Prefill(st, Some(m), ratingText).form == f;
    StoredTextAccepted(d.title);
    StoredTextAccepted(d.genre);
    StoredTextAccepted(d.description);
    StoredTextAccepted(d.posterUrl);
    assert MovieRatingInRange(ParseFloat(f.rating));
    ValidMovieFormIff(f);
    assert IsValidMovieForm(f);
    assert SubmittedData(f) == d;
  }

  /** A rating typed as an unsigned literal `u` with value `m` (one that
      starts with a digit or a point, as `.5` does), after optional white
      space and a sign, passes the range check exactly when the signed
      value lies in [0, 10]. */
  lemma DecimalRatingChecked(w: string, sign: Sign, u: string, m: real)
    requires AllWhiteSpace(w)
    requires u != [] && (IsDecimalDigit(u[0]) || u[0] == '.')
    requires ParseUnsignedFloat(u) == Finite(m)
    ensures MovieRatingInRange(ParseFloat(w + sign.Text() + u))
      <==> 0.0 <= (if sign.Minus? then -m else m) <= 10.0
  {
    ParseFloatOf(w, sign, u, m);
  }

  /** A rating typed as the plain decimal `n.f`, with `k` fraction digits,
      passes exactly when its value is at most 10. */
  lemma DecimalTextChecked(t: string, n: nat, f: nat, k: nat)
    requires f < Pow10(k) && t == NatToDecimal(n) + "." + PaddedDecimal(f, k)
    ensures RatingError(t).None? <==> n as real + Unshift(f as real, k) <= 10.0
  {
    ParseFloatDecimal(n, f, k, []);
    assert NatToDecimal(n) + "." + PaddedDecimal(f, k) + [] == t;
    UnshiftNonNegative(f as real, k);
  }

  lemma UnshiftNonNegative(x: real, k: nat)
    requires x >= 0.0
    ensures Unshift(x, k) >= 0.0
  {
    if k > 0 {
      UnshiftNonNegative(x, k - 1);
    }
  }

  /** The rating check on whole numbers: "10" passes. */
  lemma RatingTenAccepted()
    ensures RatingError("10").None?
  {
    ParseFloatInteger([], Unsigned, 10, []);
    assert [] + Unsigned.Text() + (NatToDecimal(10) + []) == "10";
  }

  /** The rating check on decimals: "8.5" passes. */
  lemma RatingDecimalAccepted()
    ensures RatingError("8.5").None?
  {
    assert NatToDecimal(8) == "8" && PaddedDecimal(5, 1) == "5";
    DecimalTextChecked("8.5", 8, 5, 1);
  }

  /** A rating with no integer part: ".5" passes. */
  lemma RatingLeadingPointAccepted()
    ensures RatingError(".5").None?
  {
    assert ".5" == ['.', DigitChar(5)];
    PointDigit(5);
    DecimalRatingChecked([], Unsigned, ".5", 0.5);
    assert [] + Unsigned.Text() + ".5" == ".5";
  }

  /** A rating with no integer part: " -.5" is out of range. */
  lemma RatingLeadingPointRejected()
    ensures RatingError(" -.5") == Some("Rating must be between 0 and 10")
  {
    assert ".5" == ['.', DigitChar(5)];
    PointDigit(5);
    var t := " " + Minus.Text() + ".5";
    DecimalRatingChecked(" ", Minus, ".5", 0.5);
    assert !MovieRatingInRange(ParseFloat(t));
    assert t == " -.5";
  }

  /** The rating check on decimals: "10.1" is out of range. */
  lemma RatingDecimalRejected()
    ensures RatingError("10.1") == Some("Rating must be between 0 and 10")
  {
    assert NatToDecimal(10) == "10" && PaddedDecimal(1, 1) == "1";
    DecimalTextChecked("10.1", 10, 1, 1);
  }

  /** An empty rating is missing; "abc" is not a number. */
  lemma RatingMissingOrNaN()
    ensures RatingError("") == Some("Rating is required")
    ensures RatingError("abc") == Some("Rating must be between 0 and 10")
  {
    var abc := "abc";
    ParseFloatNaN([], abc);
    assert [] + abc == abc;
  }
}

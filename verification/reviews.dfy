/** The reviews page: the review form, its validation, and the list of
    submitted reviews, newest first, with the success notice. */
module Reviews {
  import opened Optional
  import opened JsString
  import opened JsNumber
  import opened Patterns
  import opened Forms

  /** A submitted review. The rating is kept as the text typed in. */
  datatype Review = Review(
    id: int,
    userName: string,
    email: string,
    movieTitle: string,
    rating: string,
    timestamp: string)

  /** The review form's fields, as the submit handler receives them. */
  datatype ReviewForm = ReviewForm(
    userName: string,
    email: string,
    movieTitle: string,
    rating: string)

  const EmptyReviewForm := ReviewForm("", "", "", "")

  /** The error record: one message slot per field. */
  datatype ReviewErrors = ReviewErrors(
    userName: Option<string>,
    email: Option<string>,
    movieTitle: Option<string>,
    rating: Option<string>)

  const NoReviewErrors := ReviewErrors(None, None, None, None)

  /** The page's state: the form, the messages on display, the reviews
      submitted so far (newest first) and whether the success notice shows. */
  datatype ReviewsState = ReviewsState(
    form: ReviewForm,
    errors: ReviewErrors,
    reviews: seq<Review>,
    submitted: bool)

  const InitialReviewsState := ReviewsState(EmptyReviewForm, NoReviewErrors, [], false)

  /** A `parseInt` result the rating check lets through: a number in [1, 10]. */
  predicate ReviewRatingInRange(n: Option<int>) {
    n.Some? && 1 <= n.value <= 10
  }

  /** The e-mail check: required first, then the address pattern, applied
      to the untrimmed value. */
  function EmailError(s: string): (e: Option<string>)
    ensures e.Some? <==> AllWhiteSpace(s) || !(exists i, j :: EmailSplit(s, i, j))
    ensures e.Some? ==>
      e.value == (if AllWhiteSpace(s) then "Email is required" else "Please enter a valid email address")
  {
    EmailPatternIsSplit(s);
    if IsBlank(s) then Some("Email is required")
    else if !MatchesEmailPattern(s) then Some("Please enter a valid email address")
    else None
  }

  /** The rating check: required when nothing at all is typed, then
      range-checked after `parseInt`. */
  function RatingError(s: string): (e: Option<string>)
    ensures e.Some? <==> s == [] || !ReviewRatingInRange(ParseInt(s))
    ensures e.Some? ==>
      e.value == (if s == [] then "Rating is required" else "Rating must be between 1 and 10")
  {
    if s == [] then Some("Rating is required")
    else if !ReviewRatingInRange(ParseInt(s)) then Some("Rating must be between 1 and 10")
    else None
  }

  /** The review form's validation: every field's check, each with its own
      message. */
  function ValidateReview(f: ReviewForm): (errors: ReviewErrors)
    ensures errors.userName.Some? <==> AllWhiteSpace(f.userName)
    ensures errors.email.Some? <==>
      AllWhiteSpace(f.email) || !(exists i, j :: EmailSplit(f.email, i, j))
    ensures errors.movieTitle.Some? <==> AllWhiteSpace(f.movieTitle)
    ensures errors.rating.Some? <==> f.rating == [] || !ReviewRatingInRange(ParseInt(f.rating))
    ensures errors.userName.Some? ==> errors.userName.value == "Name is required"
    ensures errors.email.Some? ==>
      errors.email.value == (if AllWhiteSpace(f.email) then "Email is required" else "Please enter a valid email address")
    ensures errors.movieTitle.Some? ==> errors.movieTitle.value == "Movie title is required"
    ensures errors.rating.Some? ==>
      errors.rating.value == (if f.rating == [] then "Rating is required" else "Rating must be between 1 and 10")
  {
    ReviewErrors(
      RequiredError(f.userName, "Name is required"),
      EmailError(f.email),
      RequiredError(f.movieTitle, "Movie title is required"),
      RatingError(f.rating))
  }

  predicate IsValidReview(f: ReviewForm) {
    ValidateReview(f) == NoReviewErrors
  }

  /** The e-mail passes its check exactly when it matches the pattern (a
      match is never blank). */
  lemma EmailPasses(s: string)
    ensures EmailError(s).None? <==> MatchesEmailPattern(s)
  {
    EmailPatternIsSplit(s);
    if MatchesEmailPattern(s) {
      EmailPatternHasNoWhiteSpace(s);
      assert !IsWhiteSpace(s[0]);
    }
  }

  /** A review form passes exactly when the name and movie title hold
      something other than white space, the e-mail matches the pattern, and
      the rating is present and reads as an integer in [1, 10]. */
  lemma ValidReviewIff(f: ReviewForm)
    ensures IsValidReview(f) <==>
      && !AllWhiteSpace(f.userName) && !AllWhiteSpace(f.movieTitle)
      && MatchesEmailPattern(f.email)
      && f.rating != [] && ReviewRatingInRange(ParseInt(f.rating))
  {
    var e := ValidateReview(f);
    assert IsValidReview(f) <==>
      e.userName.None? && e.email.None? && e.movieTitle.None? && e.rating.None?;
    EmailPasses(f.email);
  }

  /** What every listed review satisfies: name and movie title trimmed and
      present, an e-mail matching the pattern, and a rating text that
      `parseInt` reads as a number in [1, 10]. */
  predicate IsStoredReview(r: Review) {
    && IsTrimmedText(r.userName)
    && MatchesEmailPattern(r.email)
    && IsTrimmedText(r.movieTitle)
    && ReviewRatingInRange(ParseInt(r.rating))
  }

  predicate AllStoredReviews(rs: seq<Review>) {
    forall i :: 0 <= i < |rs| ==> IsStoredReview(rs[i])
  }

  /** The review a valid form produces: `id` is the submission time in
      milliseconds and `timestamp` its local rendering. The e-mail is
      trimmed like the other text fields, which leaves it as typed; the
      rating keeps its text as typed. */
  function NewReview(f: ReviewForm, id: int, timestamp: string): (r: Review)
    requires IsValidReview(f)
    ensures IsStoredReview(r)
    ensures r.userName == Trim(f.userName) && r.movieTitle == Trim(f.movieTitle)
    ensures r.email == f.email && r.rating == f.rating
    ensures r.id == id && r.timestamp == timestamp
  {
    ValidReviewIff(f);
    EmailPatternHasNoWhiteSpace(f.email);
    Review(id, Trim(f.userName), Trim(f.email), Trim(f.movieTitle), f.rating, timestamp)
  }

  /** Submitting the review form at time `now`, rendered as `timestamp`. */
  function SubmitReview(st: ReviewsState, now: int, timestamp: string): (r: ReviewsState)
    ensures !IsValidReview(st.form) ==> r == st.(errors := ValidateReview(st.form))
    ensures IsValidReview(st.form) ==>
      && r.form == EmptyReviewForm && r.errors == NoReviewErrors && r.submitted
      && |r.reviews| == |st.reviews| + 1 && r.reviews[1..] == st.reviews
      && IsStoredReview(r.reviews[0]) && r.reviews[0] == NewReview(st.form, now, timestamp)
  {
    if !IsValidReview(st.form) then
      st.(errors := ValidateReview(st.form))
    else
      var review := NewReview(st.form, now, timestamp);
      ReviewsState(EmptyReviewForm, NoReviewErrors, [review] + st.reviews, true)
  }

  /** The timer that hides the success notice. */
  function HideSuccess(st: ReviewsState): (r: ReviewsState)
    ensures !r.submitted
    ensures r.form == st.form && r.errors == st.errors && r.reviews == st.reviews
  {
    st.(submitted := false)
  }

  /** Submitting keeps every listed review well formed. */
  lemma SubmitKeepsStoredReviews(st: ReviewsState, now: int, timestamp: string)
    requires AllStoredReviews(st.reviews)
    ensures AllStoredReviews(SubmitReview(st, now, timestamp).reviews)
  {
    var r := SubmitReview(st, now, timestamp);
    if IsValidReview(st.form) {
      forall i | 0 <= i < |r.reviews| ensures IsStoredReview(r.reviews[i]) {
        if i > 0 {
          assert r.reviews[i] == st.reviews[i - 1];
        }
      }
    }
  }

  /** A rating typed as a decimal integer (after optional white space and
      sign, before any non-digit tail, which is kept in the review as typed)
      passes exactly when its value lies in [1, 10]. */
  lemma DecimalRatingChecked(w: string, sign: Sign, n: nat, rest: string)
    requires AllWhiteSpace(w)
    requires rest == [] || !IsDecimalDigit(rest[0])
    requires n == 0 ==> rest == [] || (rest[0] != 'x' && rest[0] != 'X')
    ensures var text := w + sign.Text() + (NatToDecimal(n) + rest);
      RatingError(text).None? <==> 1 <= sign.Apply(n) <= 10
  {
    ParseIntDecimal(w, sign, n, rest);
    var text := w + sign.Text() + (NatToDecimal(n) + rest);
    assert text != [];
  }

  /** A rating typed as the plain numeral of `n` passes exactly when `n`
      lies in [1, 10]. */
  lemma NumeralRatingChecked(t: string, n: nat)
    requires t == NatToDecimal(n)
    ensures RatingError(t).None? <==> 1 <= n <= 10
  {
    ParseIntNumeral(n, []);
    assert NatToDecimal(n) + [] == t;
  }

  /** The review rating on its boundaries: "1" and "10" pass, "0" and
      "11" are out of range. */
  lemma RatingBoundaryExamples()
    ensures RatingError("1").None? && RatingError("10").None?
    ensures RatingError("0") == Some("Rating must be between 1 and 10")
    ensures RatingError("11") == Some("Rating must be between 1 and 10")
  {
    assert NatToDecimal(0) == "0" && NatToDecimal(1) == "1";
    assert NatToDecimal(10) == "10" && NatToDecimal(11) == "11";
    NumeralRatingChecked("0", 0);
    NumeralRatingChecked("1", 1);
    NumeralRatingChecked("10", 10);
    NumeralRatingChecked("11", 11);
  }
}

/**
 * The review form: its initial state, the two validation guards checked in
 * order, the request it sends (create or update), the state the reply
 * leaves behind, the submit button's disabled condition, and what is shown
 * without a session.
 */
module ReviewForm {
  import opened Wrappers
  import opened Text

  /** A review being edited, as passed in by the site page. */
  datatype ExistingReview = ExistingReview(rating: int, title: Option<string>, content: string)

  datatype HttpMethod = POST | PUT

  /** The JSON body; a `None` title is a key left out by `JSON.stringify`. */
  datatype ReviewBody = ReviewBody(rating: int, title: Option<string>, content: string)

  datatype ReviewRequest = ReviewRequest(url: string, httpMethod: HttpMethod, body: ReviewBody)

  /**
   * How the `fetch` ended: an OK response; a response that is not OK, with
   * the `error` field of its JSON body if it has one; or a thrown value,
   * with its message when it is an `Error`.
   */
  datatype Reply = Accepted | Rejected(errorField: Option<string>) | Thrown(message: Option<string>)

  const RatingMissing := "Please select a rating"
  const ContentTooShort := "Review content must be at least 10 characters long"
  const SubmitFailed := "Failed to submit review"
  const UnknownError := "An error occurred"

  /** The guards of `handleSubmit`, in order: the message of the first that fails, `None` when both pass. */
  function Validate(rating: int, content: string): (r: Option<string>)
    ensures rating == 0 ==> r == Some(RatingMissing)
    ensures rating != 0 ==> (r.Some? <==> |Trim(content)| < 10)
    ensures r.Some? ==> r.value == RatingMissing || r.value == ContentTooShort
  {
    if rating == 0 then Some(RatingMissing)
    else if |Trim(content)| < 10 then Some(ContentTooShort)
    else None
  }

  /** White space around the content never changes the verdict. */
  lemma ValidateIgnoresPadding(rating: int, before: string, content: string, after: string)
    requires AllWhitespace(before) && AllWhitespace(after)
    ensures Validate(rating, before + content + after) == Validate(rating, content)
  {
    TrimPadded(before, content, after);
  }

  /** The endpoint of a site's reviews. */
  function ReviewsUrl(siteId: string): (u: string)
    ensures IsPrefix("/api/sites/", u) && |u| == |"/api/sites/"| + |siteId| + |"/reviews"|
    ensures u[|"/api/sites/"|..|"/api/sites/"| + |siteId|] == siteId
    ensures u[|"/api/sites/"| + |siteId|..] == "/reviews"
  {
    "/api/sites/" + siteId + "/reviews"
  }

  /** The request `handleSubmit` sends once both guards pass. */
  function RequestFor(siteId: string, isEditing: bool, rating: int, title: string, content: string): (q: ReviewRequest)
    ensures q.url == ReviewsUrl(siteId)
    ensures q.httpMethod == PUT <==> isEditing
    ensures q.body.rating == rating
    ensures q.body.title.None? <==> Trim(title) == []
    ensures q.body.title.Some? ==> q.body.title.value == Trim(title)
    ensures q.body.content == Trim(content)
  {
    var trimmedTitle := Trim(title);
    ReviewRequest(
      ReviewsUrl(siteId),
      if isEditing then PUT else POST,
      ReviewBody(rating, if trimmedTitle == [] then None else Some(trimmedTitle), Trim(content)))
  }

  /** A request is only sent with a rating and at least ten characters of trimmed content. */
  lemma SentContentIsLongEnough(siteId: string, isEditing: bool, rating: int, title: string, content: string)
    requires Validate(rating, content).None?
    ensures var q := RequestFor(siteId, isEditing, rating, title, content);
      q.body.rating != 0 && |q.body.content| >= 10
      && !IsJsWhitespace(q.body.content[0]) && !IsJsWhitespace(q.body.content[|q.body.content| - 1])
  {
  }

  /** The error message the reply leaves: none after success, else the server's or a fallback. */
  function ErrorAfter(reply: Reply): (e: Option<string>)
    ensures e.None? <==> reply.Accepted?
    ensures reply.Rejected? && reply.errorField.Some? && reply.errorField.value != "" ==> e == reply.errorField
    ensures reply.Rejected? && (reply.errorField.None? || reply.errorField.value == "") ==> e == Some(SubmitFailed)
    ensures reply.Thrown? ==> e == Some(if reply.message.Some? then reply.message.value else UnknownError)
  {
    match reply
    case Accepted => None
    case Rejected(field) =>
      Some(if field.Some? && field.value != "" then field.value else SubmitFailed)
    case Thrown(message) =>
      Some(if message.Some? then message.value else UnknownError)
  }

  /** The submit button is disabled while submitting or while a guard would fail. */
  function SubmitDisabled(isSubmitting: bool, rating: int, content: string): (b: bool) {
    isSubmitting || rating == 0 || |Trim(content)| < 10
  }

  /** The disabled condition mirrors the guards: the button is enabled exactly when a click would send. */
  lemma SubmitDisabledMirrorsGuards(isSubmitting: bool, rating: int, content: string)
    ensures SubmitDisabled(isSubmitting, rating, content) <==> isSubmitting || Validate(rating, content).Some?
  {
  }

  datatype Action = Close | Cancel | Submit

  /** What the component renders. */
  datatype View =
    | SignInPrompt(actions: seq<Action>)
    | FormView(heading: string, submitLabel: string, submitDisabled: bool,
               cancelDisabled: bool, error: Option<string>, actions: seq<Action>)

  class ReviewFormState {
    const siteId: string
    const existing: Option<ExistingReview>
    var rating: int
    var title: string
    var content: string
    var isSubmitting: bool
    var error: Option<string>

    /** `isEditing`: an existing review was passed in. */
    predicate IsEditing()
      reads this
    {
      existing.Some?
    }

    /**
     * The initial state: the existing review's rating, title and content,
     * each falling back to `0` or `""`; not submitting; no error.
     */
    constructor (siteId: string, existing: Option<ExistingReview>)
      ensures this.siteId == siteId && this.existing == existing
      ensures existing.None? ==> rating == 0 && title == "" && content == ""
      ensures existing.Some? ==> rating == existing.value.rating && content == existing.value.content
      ensures existing.Some? && existing.value.title.Some? ==> title == existing.value.title.value
      ensures existing.Some? && existing.value.title.None? ==> title == ""
      ensures !isSubmitting && error == None
    {
      this.siteId := siteId;
      this.existing := existing;
      match existing {
        case None =>
          rating, title, content := 0, "", "";
        case Some(r) =>
          rating := r.rating;
          title := if r.title.Some? then r.title.value else "";
          content := r.content;
      }
      isSubmitting := false;
      error := None;
    }

    /**
     * `handleSubmit`: a failing guard sets its message and sends nothing;
     * otherwise the request is sent, `onSuccess` is called exactly when the
     * reply is OK, the error reflects the reply, and submitting ends false.
     * The fields of the form are never changed.
     */
    method HandleSubmit(reply: Reply) returns (sent: Option<ReviewRequest>, notified: bool)
      modifies this
      ensures rating == old(rating) && title == old(title) && content == old(content)
      ensures Validate(rating, content).Some? ==>
        sent.None? && !notified && error == Validate(rating, content) && isSubmitting == old(isSubmitting)
      ensures Validate(rating, content).None? ==>
        && sent == Some(RequestFor(siteId, IsEditing(), rating, title, content))
        && (notified <==> reply.Accepted?)
        && error == ErrorAfter(reply)
        && !isSubmitting
    {
      sent, notified := None, false;
      var trimmedLength := |Trim(content)|;
      if rating == 0 {
        error := Some(RatingMissing);
        return;
      }
      if trimmedLength < 10 {
        error := Some(ContentTooShort);
        return;
      }
      isSubmitting := true;
      error := None;
      sent := Some(RequestFor(siteId, existing.Some?, rating, title, content));
      notified := Settle(reply);
    }

    /**
     * The `try`/`catch`/`finally` around the request: `onSuccess` is called
     * exactly when the reply is OK, the error reflects the reply, and
     * submitting ends false.
     */
    method Settle(reply: Reply) returns (notified: bool)
      modifies this
      ensures rating == old(rating) && title == old(title) && content == old(content)
      ensures notified <==> reply.Accepted?
      ensures error == ErrorAfter(reply) && !isSubmitting
    {
      notified := false;
      match reply {
        case Accepted =>
          notified := true;
          error := None;
        case Rejected(field) =>
          error := Some(if field.Some? && field.value != "" then field.value else SubmitFailed);
        case Thrown(message) =>
          error := Some(if message.Some? then message.value else UnknownError);
      }
      isSubmitting := false;
    }

    /** The rendered component for a session that is present or not. */
    function Render(hasSession: bool): (v: View)
      reads this
      ensures !hasSession ==> v == SignInPrompt([Close])
      ensures hasSession ==> v.FormView? && v.actions == [Submit, Cancel]
      ensures hasSession ==> (v.heading == "Edit Review" <==> IsEditing())
      ensures hasSession ==> v.submitDisabled == SubmitDisabled(isSubmitting, rating, content)
      ensures hasSession ==> v.cancelDisabled == isSubmitting && v.error == error
    {
      if !hasSession then SignInPrompt([Close])
      else FormView(
        if IsEditing() then "Edit Review" else "Write a Review",
        if isSubmitting then "Submitting..." else if IsEditing() then "Update Review" else "Submit Review",
        SubmitDisabled(isSubmitting, rating, content),
        isSubmitting,
        error,
        [Submit, Cancel])
    }
  }
}

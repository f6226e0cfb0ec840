/** The `@validates('comment')` hook of `Review`: every assignment to the
    `comment` attribute passes through `ValidateComment`, and what it returns
    is what the attribute holds. */
module Validation {
  import opened Wrappers
  import opened Schema

  /** The longest comment the validator admits, in characters. */
  const MaxCommentLength: nat := 255

  /** The message of the `ValueError` the validator raises. */
  const CommentLengthMessage: string := "The comment must be between 1 and 255 characters."

  /** The exception raised by a failed validation. */
  datatype ValidationError = ValueError(message: string)

  /** Accepts a comment that is present (not `None`), not empty and at most
      255 characters long, and returns it unchanged; raises otherwise. */
  function ValidateComment(comment: Option<string>): (r: Result<string, ValidationError>)
    ensures r.Success? <==> comment.Some? && 1 <= |comment.value| <= MaxCommentLength
    ensures r.Success? ==> r.value == comment.value
    ensures r.Failure? ==> r.error == ValueError(CommentLengthMessage)
  {
    // Python's `not comment` holds for `None` and for the empty string.
    if comment.None? || |comment.value| == 0 || |comment.value| > MaxCommentLength then
      Failure(ValueError(CommentLengthMessage))
    else
      Success(comment.value)
  }

  /** `review.comment = comment` on an unflushed review: the validator runs
      first; on success the attribute holds the validated value, on failure
      the exception propagates and the object is left as it was. */
  function AssignComment(d: Draft, comment: Option<string>): (r: Result<Draft, ValidationError>)
    ensures r.Success? <==> comment.Some? && 1 <= |comment.value| <= MaxCommentLength
    ensures r.Success? ==> r.value == d.(comment := comment)
    ensures r.Failure? ==> r.error == ValueError(CommentLengthMessage)
  {
    match ValidateComment(comment)
    case Success(v) => Success(d.(comment := Some(v)))
    case Failure(e) => Failure(e)
  }

  /** What the `comment` attribute of a review can hold: `None` while it has
      never been assigned, and otherwise a value the validator returned. */
  predicate CommentAdmissible(comment: Option<string>) {
    comment.None? || ValidateComment(comment).Success?
  }

  /** Assignment is the only way to change the attribute, and a successful
      one leaves it admissible; a failed one raises before anything changes. */
  lemma AssignCommentAdmissible(d: Draft, comment: Option<string>)
    ensures AssignComment(d, comment).Success? ==> CommentAdmissible(AssignComment(d, comment).value.comment)
  {
  }

  /** A validated comment passes validation again with the same value, so
      re-assigning an attribute its own value never raises. */
  lemma ValidateCommentIdempotent(comment: Option<string>)
    requires ValidateComment(comment).Success?
    ensures ValidateComment(Some(ValidateComment(comment).value)) == ValidateComment(comment)
  {
  }

  /** The boundary cases: `None` and `""` are rejected, one character and
      255 characters are accepted, 256 characters are rejected. */
  lemma CommentBoundaries()
    ensures ValidateComment(None).Failure?
    ensures ValidateComment(Some("")).Failure?
    ensures ValidateComment(Some("a")) == Success("a")
    ensures ValidateComment(Some(seq(255, _ => 'x'))).Success?
    ensures ValidateComment(Some(seq(256, _ => 'x'))).Failure?
  {
  }
}

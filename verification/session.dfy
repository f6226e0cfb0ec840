/** Flushing a new `Review` into the store. The `reviews` table declares
    `customer_id` and `item_id` NOT NULL, so a review whose foreign keys are
    unset cannot be stored; this is the only way a review enters the store,
    which is why every stored review has both keys. The primary key is
    assigned on insert, one more than the largest key in the table (1 for an
    empty table), as an integer row id is. */
module Session {
  import opened Wrappers
  import opened Schema
  import Validation

  /** The integrity error reported for a NOT NULL column left unset. */
  datatype FlushError = NotNullViolation(column: string)

  /** The largest primary key among `reviews`. */
  function MaxReviewId(reviews: seq<Review>): (m: int)
    requires |reviews| > 0
    ensures forall r :: r in reviews ==> r.id <= m
    ensures exists r :: r in reviews && r.id == m
  {
    if |reviews| == 1 then reviews[0].id
    else
      var rest := MaxReviewId(reviews[1..]);
      assert reviews[1..][0] in reviews[1..];
      if reviews[0].id >= rest then reviews[0].id else rest
  }

  /** The primary key the next inserted review receives. */
  function NextReviewId(reviews: seq<Review>): (id: int)
    ensures forall r :: r in reviews ==> r.id < id
    ensures |reviews| == 0 ==> id == 1
    ensures |reviews| > 0 ==> exists r :: r in reviews && r.id == id - 1
  {
    if |reviews| == 0 then 1 else MaxReviewId(reviews) + 1
  }

  /** `session.add(review); session.commit()` for an unflushed review: the
      NOT NULL constraints are checked in column order, and on success the
      review is appended with a fresh key; nothing else in the store changes. */
  function Flush(db: Store, d: Draft): (r: Result<Store, FlushError>)
    ensures r.Success? <==> d.customerId.Some? && d.itemId.Some?
    ensures d.customerId.None? ==> r == Failure(NotNullViolation("customer_id"))
    ensures d.customerId.Some? && d.itemId.None? ==> r == Failure(NotNullViolation("item_id"))
    ensures r.Success? ==>
      && r.value.customers == db.customers
      && r.value.items == db.items
      && |r.value.reviews| == |db.reviews| + 1
      && r.value.reviews[..|db.reviews|] == db.reviews
      && var added := r.value.reviews[|db.reviews|];
         && added.comment == d.comment
         && added.customerId == d.customerId.value
         && added.itemId == d.itemId.value
         && forall prior :: prior in db.reviews ==> prior.id != added.id
  {
    match (d.customerId, d.itemId)
    case (None, _) => Failure(NotNullViolation("customer_id"))
    case (Some(_), None) => Failure(NotNullViolation("item_id"))
    case (Some(c), Some(i)) =>
      var added := Review(NextReviewId(db.reviews), d.comment, c, i);
      Success(db.(reviews := db.reviews + [added]))
  }

  /** Flushing keeps every primary key of the store unique. */
  lemma {:induction false} FlushPreservesValid(db: Store, d: Draft)
    requires Valid(db)
    requires Flush(db, d).Success?
    ensures Valid(Flush(db, d).value)
  {
    var rs := Flush(db, d).value.reviews;
    var n := |db.reviews|;
    forall i, j | 0 <= i < j < |rs|
      ensures ReviewKey(rs[i]) != ReviewKey(rs[j])
    {
      if j == n {
        assert rs[i] == db.reviews[i];
        assert db.reviews[i] in db.reviews;
      } else {
        assert rs[i] == db.reviews[i] && rs[j] == db.reviews[j];
      }
    }
  }

  /** Every stored comment is `None` or a value `validate_comment` accepted. */
  predicate CommentsValidated(db: Store) {
    forall r :: r in db.reviews ==> Validation.CommentAdmissible(r.comment)
  }

  /** A review can only carry a comment that went through the validator, so
      flushing it keeps every stored comment validated. */
  lemma {:induction false} FlushKeepsCommentsValidated(db: Store, d: Draft)
    requires CommentsValidated(db)
    requires Validation.CommentAdmissible(d.comment)
    requires Flush(db, d).Success?
    ensures CommentsValidated(Flush(db, d).value)
    ensures forall r :: r in Flush(db, d).value.reviews ==>
      r.comment.None? || 1 <= |r.comment.value| <= Validation.MaxCommentLength
  {
    var rs := Flush(db, d).value.reviews;
    forall r | r in rs
      ensures Validation.CommentAdmissible(r.comment)
    {
      var k :| 0 <= k < |rs| && rs[k] == r;
      if k < |db.reviews| {
        assert rs[k] == db.reviews[k];
      }
    }
  }
}

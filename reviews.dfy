/** What posting a review does to a movie document, stated on values:
    a second review by the same user is refused; otherwise the review is
    appended and the review count and average rating are recomputed. */
module Reviews {
  import opened Wrappers
  import opened Movies

  /** The outcome of posting a review. */
  datatype ReviewStep = AlreadyReviewed | Reviewed(movie: MovieDoc)

  /** The review recorded for `user`: their current name, their image or "" when
      they have none, the rating, the comment and their id. */
  function NewReview(user: Requester, rating: real, comment: string): (r: Review)
    ensures r.userId == user.id && r.userName == user.fullName
    ensures r.rating == rating && r.comment == comment
    ensures r.userImage == (if user.image.Some? then user.image.value else "")
  {
    Review(user.fullName, user.image.GetOr(""), rating, comment, user.id)
  }

  function AddReviewTo(d: MovieDoc, user: Requester, rating: real, comment: string): (r: ReviewStep)
    ensures r.AlreadyReviewed? <==> HasReviewed(d.reviews, user.id)
    ensures r.Reviewed? ==> r.movie.id == d.id
    ensures r.Reviewed? ==> |r.movie.reviews| == |d.reviews| + 1
                            && r.movie.numberOfReviews == |r.movie.reviews|
  {
    if HasReviewed(d.reviews, user.id) then AlreadyReviewed
    else
      var rs := d.reviews + [NewReview(user, rating, comment)];
      Reviewed(d.(reviews := rs, numberOfReviews := |rs|, rate := Mean(rs)))
  }

  /** A user who already reviewed the movie is refused, and only such a user. */
  lemma RejectsExactlyRepeatReviewers(d: MovieDoc, user: Requester, rating: real, comment: string)
    ensures AddReviewTo(d, user, rating, comment).AlreadyReviewed?
        <==> exists i :: 0 <= i < |d.reviews| && d.reviews[i].userId == user.id
  {
  }

  /** An accepted review is appended at the end, earlier reviews are untouched, and
      nothing but the reviews, their count and the rating changes. */
  lemma AcceptedReviewIsAppended(d: MovieDoc, user: Requester, rating: real, comment: string)
    requires AddReviewTo(d, user, rating, comment).Reviewed?
    ensures var m := AddReviewTo(d, user, rating, comment).movie;
      && |m.reviews| == |d.reviews| + 1
      && m.reviews[..|d.reviews|] == d.reviews
      && m.reviews[|d.reviews|] == NewReview(user, rating, comment)
      && m.(reviews := d.reviews, numberOfReviews := d.numberOfReviews, rate := d.rate) == d
  {
  }

  /** After an accepted review the count equals the number of reviews and the
      rating is their arithmetic mean, whatever the fields held before. */
  lemma AcceptedReviewAggregates(d: MovieDoc, user: Requester, rating: real, comment: string)
    requires AddReviewTo(d, user, rating, comment).Reviewed?
    ensures var m := AddReviewTo(d, user, rating, comment).movie;
      && Aggregated(m)
      && m.numberOfReviews == |d.reviews| + 1
      && m.rate == (SumRatings(d.reviews) + rating) / (|d.reviews| + 1) as real
  {
    SumAppend(d.reviews, NewReview(user, rating, comment));
  }

  /** Posting keeps every user to at most one review on the movie. */
  lemma AddReviewKeepsReviewersUnique(d: MovieDoc, user: Requester, rating: real, comment: string)
    requires UniqueReviewers(d.reviews)
    ensures var step := AddReviewTo(d, user, rating, comment);
      step.Reviewed? ==> UniqueReviewers(step.movie.reviews)
  {
  }

  /** Posting again as the same user is refused, so the movie stays as the
      first post left it. */
  lemma SecondReviewIsRejected(d: MovieDoc, user: Requester, rating: real, comment: string,
                               rating2: real, comment2: string)
    requires AddReviewTo(d, user, rating, comment).Reviewed?
    ensures AddReviewTo(AddReviewTo(d, user, rating, comment).movie, user, rating2, comment2) == AlreadyReviewed
  {
  }

  /** When every rating, the new one included, lies in [lo, hi], so does the
      recomputed rate. */
  lemma AcceptedRateWithin(d: MovieDoc, user: Requester, rating: real, comment: string, lo: real, hi: real)
    requires AddReviewTo(d, user, rating, comment).Reviewed?
    requires RatingsWithin(d.reviews, lo, hi) && lo <= rating <= hi
    ensures lo <= AddReviewTo(d, user, rating, comment).movie.rate <= hi
  {
    var rs := d.reviews + [NewReview(user, rating, comment)];
    assert RatingsWithin(rs, lo, hi) by {
      forall i | 0 <= i < |rs| ensures lo <= rs[i].rating <= hi {
        if i < |d.reviews| { assert rs[i] == d.reviews[i]; }
      }
    }
    MeanWithin(rs, lo, hi);
  }
}

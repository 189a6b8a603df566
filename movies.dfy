/** The movie document and its reviews, as the movie store holds them, and
    the rating arithmetic that the review handler performs over them. */
module Movies {
  import opened Wrappers

  type UserId = string
  type MovieId = string

  /** One review, a snapshot of the reviewer's name and image at write time. */
  datatype Review = Review(
    userName: string,
    userImage: string,
    rating: real,
    comment: string,
    userId: UserId)

  /** A stored movie document. `rate` and `numberOfReviews` are derived from
      `reviews` by the review handler, but an administrator may overwrite them. */
  datatype MovieDoc = MovieDoc(
    id: MovieId,
    name: string,
    desc: string,
    image: string,
    titleImage: string,
    rate: real,
    numberOfReviews: int,
    category: string,
    time: int,
    language: string,
    year: int,
    video: string,
    casts: seq<string>,
    reviews: seq<Review>,
    createdAt: int)

  /** The authenticated user a request is made for. */
  datatype Requester = Requester(id: UserId, fullName: string, image: Option<string>)

  /** Sum of the ratings, accumulated from the first review to the last. */
  function SumRatings(rs: seq<Review>): (r: real)
  {
    if rs == [] then 0.0 else SumRatings(rs[..|rs| - 1]) + rs[|rs| - 1].rating
  }

  /** The arithmetic mean of the ratings. */
  function Mean(rs: seq<Review>): (r: real)
    requires |rs| > 0
  {
    SumRatings(rs) / |rs| as real
  }

  predicate HasReviewed(rs: seq<Review>, user: UserId)
  {
    exists i :: 0 <= i < |rs| && rs[i].userId == user
  }

  /** At most one review per user. */
  predicate UniqueReviewers(rs: seq<Review>)
  {
    forall i, j :: 0 <= i < j < |rs| ==> rs[i].userId != rs[j].userId
  }

  /** The derived fields agree with the reviews. */
  predicate Aggregated(d: MovieDoc)
  {
    && d.numberOfReviews == |d.reviews|
    && (|d.reviews| > 0 ==> d.rate == Mean(d.reviews))
  }

  predicate RatingsWithin(rs: seq<Review>, lo: real, hi: real)
  {
    forall i :: 0 <= i < |rs| ==> lo <= rs[i].rating <= hi
  }

  /** The sum of n ratings, each between lo and hi, lies between n * lo and n * hi. */
  lemma {:induction false} SumWithin(rs: seq<Review>, lo: real, hi: real)
    requires RatingsWithin(rs, lo, hi)
    ensures |rs| as real * lo <= SumRatings(rs) <= |rs| as real * hi
  {
    if rs != [] {
      var init := rs[..|rs| - 1];
      assert RatingsWithin(init, lo, hi) by {
        forall i | 0 <= i < |init| ensures lo <= init[i].rating <= hi {
          assert init[i] == rs[i];
        }
      }
      SumWithin(init, lo, hi);
      assert |rs| as real == |init| as real + 1.0;
    }
  }

  /** The mean of ratings between lo and hi is itself between lo and hi. */
  lemma MeanWithin(rs: seq<Review>, lo: real, hi: real)
    requires |rs| > 0 && RatingsWithin(rs, lo, hi)
    ensures lo <= Mean(rs) <= hi
  {
    SumWithin(rs, lo, hi);
    var n := |rs| as real;
    assert n * lo <= SumRatings(rs) <= n * hi;
    assert SumRatings(rs) / n >= lo by {
      assert (n * lo) / n == lo;
    }
    assert SumRatings(rs) / n <= hi by {
      assert (n * hi) / n == hi;
    }
  }

  /** Appending one review adds its rating to the sum. */
  lemma SumAppend(rs: seq<Review>, r: Review)
    ensures SumRatings(rs + [r]) == SumRatings(rs) + r.rating
  {
  }

  /** The running total that the handler's `reduce` accumulates, starting from 0. */
  method TotalRating(rs: seq<Review>) returns (total: real)
    ensures total == SumRatings(rs)
  {
    total := 0.0;
    var i := 0;
    while i < |rs|
      invariant 0 <= i <= |rs|
      invariant total == SumRatings(rs[..i])
    {
      assert rs[..i + 1][..i] == rs[..i];
      total := rs[i].rating + total;
      i := i + 1;
    }
    assert rs[..i] == rs;
  }

  /** The position of the first review written by `user`, as `find` locates it. */
  method FindReviewBy(rs: seq<Review>, user: UserId) returns (found: Option<nat>)
    ensures found.None? <==> !HasReviewed(rs, user)
    ensures found.Some? ==> found.value < |rs| && rs[found.value].userId == user
    ensures found.Some? ==> forall j :: 0 <= j < found.value ==> rs[j].userId != user
  {
    var i := 0;
    while i < |rs|
      invariant 0 <= i <= |rs|
      invariant forall j :: 0 <= j < i ==> rs[j].userId != user
    {
      if rs[i].userId == user {
        return Some(i);
      }
      i := i + 1;
    }
    return None;
  }
}

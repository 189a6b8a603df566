/** The review and update request handlers over the movie collection: look the
    movie up by id, change the loaded object, and save it back only when the
    handler gets that far without throwing. */
module Controllers {
  import opened Wrappers
  import opened Movies
  import opened Reviews
  import opened Patch
  import opened MovieObject

  /** Why a handler ended in its catch block. */
  datatype Failure =
    | AlreadyReviewedError  // "Already reviewed" thrown by the review handler
    | UndeclaredReviews     // the update handler reads an undeclared `reviews`

  /** 200/201 with the saved movie, 404, or 500 from the catch block. */
  datatype Reply = Done(movie: MovieDoc) | NotFound | ServerError(reason: Failure)

  function FindFrom(store: seq<MovieDoc>, id: MovieId, from: nat): (r: Option<nat>)
    requires from <= |store|
    ensures r.Some? ==> from <= r.value < |store| && store[r.value].id == id
    ensures r.Some? ==> forall j :: from <= j < r.value ==> store[j].id != id
    ensures r.None? <==> forall j :: from <= j < |store| ==> store[j].id != id
    decreases |store| - from
  {
    if from == |store| then None
    else if store[from].id == id then Some(from)
    else FindFrom(store, id, from + 1)
  }

  /** `findById`: the first movie with the given id, if any. */
  function FindById(store: seq<MovieDoc>, id: MovieId): (r: Option<nat>)
    ensures r.Some? ==> r.value < |store| && store[r.value].id == id
    ensures r.None? <==> forall j :: 0 <= j < |store| ==> store[j].id != id
  {
    FindFrom(store, id, 0)
  }

  /** The lookup depends only on the ids: replacing a movie by one with the same
      id does not move the result. */
  lemma {:induction false} FindFromSameIds(a: seq<MovieDoc>, b: seq<MovieDoc>, id: MovieId, from: nat)
    requires from <= |a| == |b|
    requires forall j :: from <= j < |a| ==> a[j].id == b[j].id
    ensures FindFrom(a, id, from) == FindFrom(b, id, from)
    decreases |a| - from
  {
    if from < |a| {
      FindFromSameIds(a, b, id, from + 1);
    }
  }

  /** Every movie allows at most one review per user. */
  predicate ReviewersUnique(store: seq<MovieDoc>)
  {
    forall i :: 0 <= i < |store| ==> UniqueReviewers(store[i].reviews)
  }

  /** Posting a review on movie `id`: not found, refused for a repeat reviewer
      (nothing saved), or the movie with the review aggregated in, saved in place. */
  method CreateMovieReview(store: seq<MovieDoc>, id: MovieId, user: Requester, rating: real, comment: string)
    returns (reply: Reply, saved: seq<MovieDoc>)
    ensures FindById(store, id).None? ==> reply == NotFound && saved == store
    ensures FindById(store, id).Some? ==>
      var i := FindById(store, id).value;
      match AddReviewTo(store[i], user, rating, comment)
      case AlreadyReviewed => reply == ServerError(AlreadyReviewedError) && saved == store
      case Reviewed(d) => reply == Done(d) && saved == store[i := d]
    ensures reply.Done? ==> Aggregated(reply.movie)
    ensures ReviewersUnique(store) ==> ReviewersUnique(saved)
  {
    var found := FindById(store, id);
    if found.None? {
      return NotFound, store;
    }
    var i := found.value;
    var movie := new Movie.Load(store[i]);
    var accepted := movie.AddReview(user, rating, comment);
    if !accepted {
      return ServerError(AlreadyReviewedError), store;
    }
    var d := movie.Doc();
    AcceptedReviewAggregates(store[i], user, rating, comment);
    if ReviewersUnique(store) {
      AddReviewKeepsReviewersUnique(store[i], user, rating, comment);
    }
    return Done(d), store[i := d];
  }

  /** The administrator's update of movie `id`: not found, a crash for a movie
      with two or more reviews (nothing saved), or the merged movie saved in place. */
  method UpdateMovie(store: seq<MovieDoc>, id: MovieId, p: MoviePatch)
    returns (reply: Reply, saved: seq<MovieDoc>)
    ensures FindById(store, id).None? ==> reply == NotFound && saved == store
    ensures FindById(store, id).Some? ==>
      var i := FindById(store, id).value;
      if |store[i].reviews| > 1 then reply == ServerError(UndeclaredReviews) && saved == store
      else reply == Done(Merged(store[i], p)) && saved == store[i := Merged(store[i], p)]
    ensures ReviewersUnique(store) ==> ReviewersUnique(saved)
  {
    var found := FindById(store, id);
    if found.None? {
      return NotFound, store;
    }
    var i := found.value;
    var movie := new Movie.Load(store[i]);
    var ok := movie.Update(p);
    if !ok {
      return ServerError(UndeclaredReviews), store;
    }
    var d := movie.Doc();
    MergeKeepsUnpatchable(store[i], p);
    return Done(d), store[i := d];
  }

  /** Two posts by the same user on the same movie: the second is refused and
      the collection stays as the first left it. */
  lemma RepeatPostLeavesStore(store: seq<MovieDoc>, id: MovieId, user: Requester,
                               rating: real, comment: string, d: MovieDoc, i: nat)
    requires FindById(store, id) == Some(i)
    requires AddReviewTo(store[i], user, rating, comment) == Reviewed(d)
    ensures FindById(store[i := d], id) == Some(i)
    ensures AddReviewTo(store[i := d][i], user, rating, comment) == AlreadyReviewed
  {
    FindFromSameIds(store, store[i := d], id, 0);
  }
}

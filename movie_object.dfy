/** A movie document loaded from the store and changed in place by the review
    and update handlers before it is saved back. */
module MovieObject {
  import opened Wrappers
  import opened Movies
  import opened Reviews
  import opened Patch
  import opened Js

  class Movie {
    var id: MovieId
    var name: string
    var desc: string
    var image: string
    var titleImage: string
    var rate: real
    var numberOfReviews: int
    var category: string
    var time: int
    var language: string
    var year: int
    var video: string
    var casts: seq<string>
    var reviews: seq<Review>
    var createdAt: int

    /** The document this object would be saved as. */
    function Doc(): (d: MovieDoc)
      reads this
    {
      MovieDoc(id, name, desc, image, titleImage, rate, numberOfReviews, category,
               time, language, year, video, casts, reviews, createdAt)
    }

    /** Loads a stored document. */
    constructor Load(d: MovieDoc)
      ensures Doc() == d
    {
      id, name, desc, image, titleImage := d.id, d.name, d.desc, d.image, d.titleImage;
      rate, numberOfReviews, category := d.rate, d.numberOfReviews, d.category;
      time, language, year, video := d.time, d.language, d.year, d.video;
      casts, reviews, createdAt := d.casts, d.reviews, d.createdAt;
    }

    /** Posts a review for `user`. A user who already has a review is refused and
        nothing changes; otherwise the review is pushed, the count is set to the
        number of reviews and the rate to the mean of their ratings. */
    method AddReview(user: Requester, rating: real, comment: string) returns (accepted: bool)
      modifies this`reviews, this`numberOfReviews, this`rate
      ensures accepted <==> !HasReviewed(old(reviews), user.id)
      ensures !accepted ==> unchanged(this)
      ensures accepted ==> Doc() == AddReviewTo(old(Doc()), user, rating, comment).movie
    {
      var found := FindReviewBy(reviews, user.id);
      if found.Some? {
        return false;
      }
      reviews := reviews + [NewReview(user, rating, comment)];
      numberOfReviews := |reviews|;
      var total := TotalRating(reviews);
      rate := total / numberOfReviews as real;
      return true;
    }

    /** Applies an administrator's patch field by field. Afterwards, when the movie
        has two or more reviews, the handler reads an undeclared variable and
        throws: `saved` is false and the caller does not save the object. */
    method Update(p: MoviePatch) returns (saved: bool)
      modifies this
      ensures saved <==> |old(reviews)| <= 1
      ensures Doc() == Merged(old(Doc()), p)
    {
      MergeTexts(p);
      MergeNumbers(p);
      saved := !(|reviews| > 1);
    }

    /** The string-valued half of the merge. */
    method MergeTexts(p: MoviePatch)
      modifies this`name, this`desc, this`image, this`titleImage, this`category, this`language, this`video
      ensures name == OrText(p.name, old(name)) && desc == OrText(p.desc, old(desc))
      ensures image == OrText(p.image, old(image)) && titleImage == OrText(p.titleImage, old(titleImage))
      ensures category == OrText(p.category, old(category)) && language == OrText(p.language, old(language))
      ensures video == OrText(p.video, old(video))
    {
      name := OrText(p.name, name);
      desc := OrText(p.desc, desc);
      image := OrText(p.image, image);
      titleImage := OrText(p.titleImage, titleImage);
      category := OrText(p.category, category);
      language := OrText(p.language, language);
      video := OrText(p.video, video);
    }

    /** The numeric and list-valued half of the merge. */
    method MergeNumbers(p: MoviePatch)
      modifies this`rate, this`numberOfReviews, this`time, this`year, this`casts
      ensures rate == OrReal(p.rate, old(rate))
      ensures numberOfReviews == OrInt(p.numberOfReviews, old(numberOfReviews))
      ensures time == OrInt(p.time, old(time)) && year == OrInt(p.year, old(year))
      ensures casts == OrList(p.casts, old(casts))
    {
      rate := OrReal(p.rate, rate);
      numberOfReviews := OrInt(p.numberOfReviews, numberOfReviews);
      time := OrInt(p.time, time);
      year := OrInt(p.year, year);
      casts := OrList(p.casts, casts);
    }
  }
}

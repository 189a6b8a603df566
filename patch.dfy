/** The administrator's movie update, stated on values: every field takes the
    supplied value when that value is truthy in JavaScript and keeps the stored
    value otherwise. */
module Patch {
  import opened Wrappers
  import opened Movies
  import opened Js

  /** The fields an update request may carry. `None` is a field that is absent
      (or null); for `rate` and `numberOfReviews` it is also a value that
      `Number(...)` turns into NaN. */
  datatype MoviePatch = MoviePatch(
    name: Option<string>,
    desc: Option<string>,
    image: Option<string>,
    titleImage: Option<string>,
    rate: Option<real>,
    numberOfReviews: Option<int>,
    category: Option<string>,
    time: Option<int>,
    language: Option<string>,
    year: Option<int>,
    video: Option<string>,
    casts: Option<seq<string>>)

  const EmptyPatch := MoviePatch(None, None, None, None, None, None, None, None, None, None, None, None)

  /** The document after the field-by-field merge. */
  function Merged(d: MovieDoc, p: MoviePatch): (r: MovieDoc)
    ensures r.id == d.id && r.reviews == d.reviews && r.createdAt == d.createdAt
    ensures r.name == d.name || p.name == Some(r.name)
    ensures r.desc == d.desc || p.desc == Some(r.desc)
    ensures r.image == d.image || p.image == Some(r.image)
    ensures r.titleImage == d.titleImage || p.titleImage == Some(r.titleImage)
    ensures r.time == d.time || p.time == Some(r.time)
    ensures r.language == d.language || p.language == Some(r.language)
    ensures r.year == d.year || p.year == Some(r.year)
    ensures r.video == d.video || p.video == Some(r.video)
    ensures r.category == d.category || p.category == Some(r.category)
    ensures r.rate == d.rate || p.rate == Some(r.rate)
    ensures r.numberOfReviews == d.numberOfReviews || p.numberOfReviews == Some(r.numberOfReviews)
    ensures r.casts == d.casts || p.casts == Some(r.casts)
  {
    MovieDoc(d.id,
             OrText(p.name, d.name),
             OrText(p.desc, d.desc),
             OrText(p.image, d.image),
             OrText(p.titleImage, d.titleImage),
             OrReal(p.rate, d.rate),
             OrInt(p.numberOfReviews, d.numberOfReviews),
             OrText(p.category, d.category),
             OrInt(p.time, d.time),
             OrText(p.language, d.language),
             OrInt(p.year, d.year),
             OrText(p.video, d.video),
             OrList(p.casts, d.casts),
             d.reviews,
             d.createdAt)
  }

  /** A patch whose every field is falsy: absent, "", 0 or NaN. Arrays are never falsy. */
  predicate AllFalsy(p: MoviePatch)
  {
    && !TextTruthy(p.name) && !TextTruthy(p.desc) && !TextTruthy(p.image)
    && !TextTruthy(p.titleImage) && !RealTruthy(p.rate) && !IntTruthy(p.numberOfReviews)
    && !TextTruthy(p.category) && !IntTruthy(p.time) && !TextTruthy(p.language)
    && !IntTruthy(p.year) && !TextTruthy(p.video) && p.casts.None?
  }

  /** A patch changes nothing exactly when every field is falsy or already
      equal to the stored value; in particular a patch of falsy values changes nothing. */
  lemma MergeIsIdentityIffNothingNew(d: MovieDoc, p: MoviePatch)
    ensures Merged(d, p) == d <==>
      && (TextTruthy(p.name) ==> p.name.value == d.name)
      && (TextTruthy(p.desc) ==> p.desc.value == d.desc)
      && (TextTruthy(p.image) ==> p.image.value == d.image)
      && (TextTruthy(p.titleImage) ==> p.titleImage.value == d.titleImage)
      && (RealTruthy(p.rate) ==> p.rate.value == d.rate)
      && (IntTruthy(p.numberOfReviews) ==> p.numberOfReviews.value == d.numberOfReviews)
      && (TextTruthy(p.category) ==> p.category.value == d.category)
      && (IntTruthy(p.time) ==> p.time.value == d.time)
      && (TextTruthy(p.language) ==> p.language.value == d.language)
      && (IntTruthy(p.year) ==> p.year.value == d.year)
      && (TextTruthy(p.video) ==> p.video.value == d.video)
      && (p.casts.Some? ==> p.casts.value == d.casts)
  {
  }

  lemma FalsyPatchChangesNothing(d: MovieDoc, p: MoviePatch)
    requires AllFalsy(p)
    ensures Merged(d, p) == d
  {
    MergeIsIdentityIffNothingNew(d, p);
  }

  /** Applying the same patch twice is the same as applying it once. */
  lemma MergeIdempotent(d: MovieDoc, p: MoviePatch)
    ensures Merged(Merged(d, p), p) == Merged(d, p)
  {
  }

  /** The merge never touches the id, the reviews or the creation time; and a
      truthy value always wins. */
  lemma MergeKeepsUnpatchable(d: MovieDoc, p: MoviePatch)
    ensures var m := Merged(d, p);
      && m.id == d.id && m.reviews == d.reviews && m.createdAt == d.createdAt
      && (TextTruthy(p.name) ==> m.name == p.name.value)
      && (RealTruthy(p.rate) ==> m.rate == p.rate.value)
      && (IntTruthy(p.numberOfReviews) ==> m.numberOfReviews == p.numberOfReviews.value)
      && (p.casts.Some? ==> m.casts == p.casts.value)
  {
  }

  /** Without a truthy `rate` or `numberOfReviews` the merge keeps the review
      aggregate consistent. */
  lemma MergeKeepsAggregate(d: MovieDoc, p: MoviePatch)
    requires Aggregated(d)
    requires !RealTruthy(p.rate) && !IntTruthy(p.numberOfReviews)
    ensures Aggregated(Merged(d, p))
  {
  }

  /** A truthy `numberOfReviews` different from the review count is stored
      as given, so the count no longer matches the reviews. */
  lemma MergeCanBreakReviewCount(d: MovieDoc, n: int)
    requires n != 0 && n != |d.reviews|
    ensures !Aggregated(Merged(d, EmptyPatch.(numberOfReviews := Some(n))))
  {
  }
}

# Movie catalogue core: listing, reviews and admin updates

This project models the logic of the movie controller of a movie-catalogue
REST backend (`Controllers/MoviesController.js`). The model has three parts:

- **Listing.** A public listing builds a query from the query string:
  - optional equality filters on `category`, `time`, `language`, `rate` and `year`;
  - a case-insensitive search on `name`;
  - page arithmetic with defaults (page 1, two movies per page).
  It then sorts the matches newest-first and returns one page, or "not found"
  when nothing matches.
- **Top-rated list.** The ten best-rated movies, best first.
- **Reviews.** A signed-in user may post one review per movie. The review is
  appended, and the movie's review count and average rating are recomputed.
- **Admin update.** The update merges each supplied field into the stored movie
  when the value is truthy in JavaScript, and keeps the stored value otherwise.
  As written, the handler then reads an undeclared variable whenever the movie
  has two or more reviews. It throws, and nothing is saved.

The movie collection is a sequence of `MovieDoc` values in insertion order.
Database reads and writes are functions on that sequence.

A loaded movie document is the class `MovieObject.Movie`. The handlers change
it field by field: `AddReview` pushes the review and assigns `numberOfReviews`
and `rate`, and `Update` assigns the patched fields. Both methods are proved
against value-level specifications:

- `Reviews.AddReviewTo` for `AddReview`;
- `Patch.Merged` for `Update`.

The properties the source promises are proved as lemmas about those functions.
The review handler's two loops are methods checked against specification
functions: the `find` for an earlier review (`FindReviewBy`) and the `reduce`
that sums the ratings (`TotalRating`).

Modules:

- `Wrappers` (wrappers.dfy): `Option`.
- `Js` (js.dfy): JavaScript truthiness and `x || fallback` on strings, numbers and arrays.
- `Text` (text.dfy): ASCII case folding and substring search.
- `Movies` (movies.dfy): the movie and review records, and the rating sum and mean.
- `Reviews` (reviews.dfy): what posting a review does to a movie.
- `Patch` (patch.dfy): the falsy-coalescing merge.
- `MovieObject` (movie_object.dfy): the loaded movie object and its two mutating handlers.
- `Listing` (listing.dfy): query building, filtering, sorting, paging and the top-rated list.
- `Controllers` (controllers.dfy): the review and update handlers over the whole collection. Each returns its reply and the collection as saved.

Modelling choices taken from the code:

- **Truthy parameters.** A listing filter counts only when its query-string
  value is truthy. An absent value and `""` add no condition. A non-empty
  string such as `"0"` is truthy, so a numeric filter that reaches the model
  always constrains.
- **Page and limit.** Both are `Number(x) || default`. NaN, missing and 0 give
  the default. Every other value passes through unclamped, negative values
  included, and `skip = (page - 1) * limit`.
- **Negative skip and limit.** The document store refuses a negative skip. The
  handler's catch block then answers with an error, and the model returns
  `StoreFailure`. A negative limit returns at most `|limit|` documents. These
  two rules are MongoDB's behaviour, assumed here; the controller does not
  state them.
- **Page count.** `pages` is `Math.ceil(count / limit)`, computed exactly on
  integers by `CeilDiv`.
- **Review image.** A review stores the user's image, or `""` when the user
  has none (`req.user.image || ""`).
- **Refused review.** A repeat review throws `"Already reviewed"`. The handler's
  catch block answers 500, and the movie is not saved.
- **Update crash.** The crash of the update handler is modelled as written.
  The in-memory object has already been merged when it throws, but the
  collection is left unchanged.
- **Update truthiness.** In an update, strings are falsy when empty, and
  numbers when zero or NaN. An array is always truthy: an empty `casts` array
  replaces the cast list.

## Model

| member | source | states |
|---|---|---|
| `Movies.TotalRating` | Controllers/MoviesController.js:214 | the `reduce` loop over the reviews returns exactly the sum of all ratings |
| `Movies.SumAppend` | Controllers/MoviesController.js:208-214 | pushing one review adds exactly its rating to the sum |
| `Movies.SumWithin` | Controllers/MoviesController.js:214 | n ratings within [lo, hi] sum to between n*lo and n*hi |
| `Movies.MeanWithin` | Controllers/MoviesController.js:214 | the mean of ratings within [lo, hi] lies within [lo, hi] |
| `Movies.FindReviewBy` | Controllers/MoviesController.js:189 | the `find` loop returns the first review by the user, and returns none exactly when the user has no review |
| `Reviews.NewReview` | Controllers/MoviesController.js:199-205 | the review snapshot carries the user's id and name, the rating, the comment, and the image or "" when there is none |
| `Reviews.AddReviewTo` | Controllers/MoviesController.js:187-214 | the value-level review post: refused exactly for a repeat reviewer; otherwise the same movie with one more review and a count equal to the number of reviews |
| `Reviews.RejectsExactlyRepeatReviewers` | Controllers/MoviesController.js:189-195 | a post is refused if and only if some existing review has the requester's user id |
| `Reviews.AcceptedReviewIsAppended` | Controllers/MoviesController.js:199-208 | an accepted review is appended at the end, earlier reviews are untouched, and no field other than reviews, count and rate changes |
| `Reviews.AcceptedReviewAggregates` | Controllers/MoviesController.js:208-214 | after acceptance, numberOfReviews equals the number of reviews and rate is their arithmetic mean (old sum plus new rating, over n+1) |
| `Reviews.AddReviewKeepsReviewersUnique` | Controllers/MoviesController.js:189-208 | posting keeps every user to at most one review per movie |
| `Reviews.SecondReviewIsRejected` | Controllers/MoviesController.js:189-195 | a second post by the same user is refused, whatever its rating and comment |
| `Reviews.AcceptedRateWithin` | Controllers/MoviesController.js:211-214 | when all ratings, the new one included, lie within [lo, hi], the recomputed rate does too |
| `MovieObject.Movie.AddReview` | Controllers/MoviesController.js:187-214 | the loaded movie is refused and left unchanged exactly when the user already reviewed it; otherwise its new state is the appended, re-aggregated document; only reviews, count and rate may change |
| `MovieObject.Movie.Update` | Controllers/MoviesController.js:348-365 | the object's new state is the field-by-field merge; the handler gets past the reviews check (saved) exactly when the movie has at most one review |
| `MovieObject.Movie.MergeTexts` | Controllers/MoviesController.js:350-360 | each string field becomes the patch value when that value is non-empty, and only those fields change |
| `MovieObject.Movie.MergeNumbers` | Controllers/MoviesController.js:354-361 | rate, numberOfReviews, time and year take a non-zero patch value, casts takes any supplied array, and only those fields change |
| `Patch.MergeIsIdentityIffNothingNew` | Controllers/MoviesController.js:350-361 | an update leaves the movie as it was if and only if every truthy patch value already equals the stored one |
| `Patch.Merged` | Controllers/MoviesController.js:350-361 | the value-level update: id, reviews and creation time are kept, and every patchable field holds either its stored value or the supplied one |
| `Patch.FalsyPatchChangesNothing` | Controllers/MoviesController.js:350-361 | a patch of absent, empty, zero or NaN values changes nothing |
| `Patch.MergeIdempotent` | Controllers/MoviesController.js:350-361 | applying the same patch twice equals applying it once |
| `Patch.MergeKeepsUnpatchable` | Controllers/MoviesController.js:350-361 | id, reviews and creation time never change; truthy name, rate, numberOfReviews and casts values always win |
| `Patch.MergeKeepsAggregate` | Controllers/MoviesController.js:354-355 | without a truthy rate or numberOfReviews, an update keeps count and rate consistent with the reviews |
| `Patch.MergeCanBreakReviewCount` | Controllers/MoviesController.js:355 | a truthy numberOfReviews that differs from the review count is stored as given, breaking the count invariant |
| `Text.SearchIgnoresCase` | Controllers/MoviesController.js:42 | the name search gives the same answer on lower-cased name and pattern |
| `Text.ContainsIgnoringCase` | Controllers/MoviesController.js:42 | the `$regex` search with option "i", read as a literal pattern: an empty pattern matches every name, and a pattern longer than the name matches none |
| `Text.ExactMatchIsFound` | Controllers/MoviesController.js:42 | a name containing the pattern verbatim is found by the case-insensitive search |
| `Listing.BuildQuery` | Controllers/MoviesController.js:35-43 | the query has a category, language or name condition exactly when that parameter is truthy, carrying its value; numeric filters pass through |
| `Listing.Matches` | Controllers/MoviesController.js:51-57 | the store's test of a document against the query: the empty query matches every movie, a different category or a name shorter than the search pattern excludes it |
| `Listing.MatchesBuiltQuery` | Controllers/MoviesController.js:35-43 | a movie matches if and only if it equals every truthy filter and its name contains the truthy search, case-insensitively |
| `Listing.NoFiltersMatchEverything` | Controllers/MoviesController.js:36-43 | without parameters every movie matches |
| `Listing.ActionMoviesNamedMan` | Controllers/MoviesController.js:37-42 | category "Action" with search "man" lists exactly the Action movies whose name contains "man" in any case |
| `Listing.Filter` | Controllers/MoviesController.js:51-57 | the matching movies: each matching document as often as in the collection, and nothing else |
| `Listing.Insert` | Controllers/MoviesController.js:52 | inserting adds exactly one element to the multiset |
| `Listing.InsertSorted` | Controllers/MoviesController.js:52 | inserting into a descending sequence keeps it descending |
| `Listing.SortDesc` | Controllers/MoviesController.js:52 | the sort is a permutation of its input |
| `Listing.SortDescSorted` | Controllers/MoviesController.js:52 | the sort's result is in non-increasing key order (createdAt for the listing, rate for the top list) |
| `Listing.Window` | Controllers/MoviesController.js:53-54 | skip/limit returns the elements from position skip on, at most `count` of them, in order |
| `Listing.PagingOf` | Controllers/MoviesController.js:46-48 | page defaults to 1 and limit to 2 exactly when the parsed value is NaN or 0; otherwise both pass through unclamped; limit is never 0; skip = (page-1)*limit |
| `Listing.CeilDiv` | Controllers/MoviesController.js:71 | the page count is the ceiling of count/limit: (r-1)*limit < count <= r*limit for a positive limit, mirrored for a negative one |
| `Listing.ListMovies` | Controllers/MoviesController.js:30-87 | store failure exactly for a negative skip; not found exactly when nothing matches; otherwise the [skip, skip+|limit|) slice of the matches sorted newest first, at most |limit| movies, all matching, with totalMovies = count > 0 and pages = ceil(count/limit) |
| `Listing.NoMatchIffEmpty` | Controllers/MoviesController.js:57-64 | the count is 0 if and only if no movie in the collection matches |
| `Listing.WindowSorted` | Controllers/MoviesController.js:51-54 | a page of a newest-first list is newest-first |
| `Listing.WindowOfMatches` | Controllers/MoviesController.js:51-54 | every movie on a page is a matching movie of the collection |
| `Listing.EveryMovieOnItsPage` | Controllers/MoviesController.js:46-54 | movie i of the sorted matches appears on page i/limit+1 at position i mod limit |
| `Listing.PagesCountNonEmptyPages` | Controllers/MoviesController.js:46-71 | for a positive limit, page p holds movies if and only if p <= pages |
| `Listing.FilterKeepsAllMatching` | Controllers/MoviesController.js:51-57 | when every movie matches, the filter returns the collection unchanged |
| `Listing.FiveMoviesThirdPage` | Controllers/MoviesController.js:46-73 | five matching movies with limit 2: page 3 holds one movie, pages = 3, totalMovies = 5 |
| `Listing.TopRated` | Controllers/MoviesController.js:128-130 | min(10, n) movies in non-increasing rate order, all from the collection, none of the others rated above any of them |
| `Listing.TopRatedBeatsTheRest` | Controllers/MoviesController.js:128-130 | in a rate-sorted sequence no movie after the first n rates above one of the first n |
| `Controllers.FindFrom` | Controllers/MoviesController.js:183 | the first position at or after `from` holding the id, or none exactly when no such position exists |
| `Controllers.FindById` | Controllers/MoviesController.js:345 | a position holding the id, or none exactly when no movie has it |
| `Controllers.CreateMovieReview` | Controllers/MoviesController.js:177-251 | not found leaves the collection; a repeat reviewer gets the error and nothing is saved; otherwise the re-aggregated movie is saved in its place; the reply movie is aggregated; one review per user per movie is preserved |
| `Controllers.UpdateMovie` | Controllers/MoviesController.js:324-392 | not found leaves the collection; a movie with two or more reviews ends in the error and nothing is saved; otherwise the merged movie is saved in its place; one review per user per movie is preserved |
| `Controllers.RepeatPostLeavesStore` | Controllers/MoviesController.js:187-195 | after a saved review, the same user's next post on that movie finds it again and is refused |

## Left out

- `importMoviesController`, `getMovieByIdController`, `createMovieController`, `deleteMovieController` and `deleteAllMoviesController`: these are store calls with nothing else to model. The import is `deleteMany` followed by `insertMany`, two calls that are not atomic, so a failed insert leaves the collection empty. Deleting a missing movie throws "Movie not found", which the catch block answers with 500 rather than 404.
- `getRandomMovieController`: random sampling (`$sample`) is nondeterministic.
- Regular-expression semantics of `$regex`: the search string is used as an unescaped pattern; the model treats it as a literal, case-insensitive (ASCII) substring.
- JavaScript number details: `Number(...)` of arbitrary strings, non-integer page or limit values, NaN ratings, and floating-point rounding of the mean. Ratings and rates are exact reals; page and limit are integers or NaN.
- `Patch.Merged`: `time` and `year` arrive in the update body and are not passed through `Number(...)`. The model takes them as numbers, falsy at 0. A non-empty string such as `"0"` would be truthy, so the store would cast and save it; the model does not express that case.
- The store's casting of query-string filter values to the schema's types, and the cast error that a non-numeric value would raise.
- The relative order of movies with equal `createdAt` or equal `rate`: the store does not specify it; the model's insertion sort keeps collection order.
- `Listing.TopRated`: which of several equally rated movies at the cut-off make the list is not stated, because the store leaves it unspecified.
- The "movie not found" branch of the review handler and the update handler's 404 reply are modelled; a failing `save` or `findById` (store errors) is not.
- HTTP status codes, response bodies and `console.log` output.
- Concurrent read-modify-write races between two requests on the same movie.
- Controllers/CategoriesContoller.js, Controllers/UploadFiles.js, Controllers/UserController.js, middleWares/authMiddleWares.js, the routes, index.js and config/dbConnection.js are not part of this model: they are framework wiring, pass-through store calls, blob-storage and token handling.

/** The public movie listing: the filter built from the query string, the page
    arithmetic, newest-first ordering and the page slice; and the top-rated list.
    The movie collection is a sequence of documents in insertion order. */
module Listing {
  import opened Wrappers
  import opened Text
  import opened Movies
  import opened Js

  /** The filter parameters of the query string. `None` is a parameter that is
      absent or empty. A numeric parameter arrives as the store's cast of a
      non-empty string, so `Some(0)` (from "0") is still truthy and filters. */
  datatype Filters = Filters(
    category: Option<string>,
    time: Option<int>,
    language: Option<string>,
    rate: Option<real>,
    year: Option<int>,
    search: Option<string>)

  const NoFilters := Filters(None, None, None, None, None, None)

  /** `Number(pageNumber)` and `Number(limit)`; `None` stands for NaN (absent or
      not a number), `Some(0)` for the empty string or "0". */
  datatype PageRequest = PageRequest(pageNumber: Option<int>, limit: Option<int>)

  /** The store query: one optional equality per field and an optional
      case-insensitive pattern on the name. */
  datatype Query = Query(
    category: Option<string>,
    time: Option<int>,
    language: Option<string>,
    rate: Option<real>,
    year: Option<int>,
    name: Option<string>)

  /** Each condition is present exactly when its parameter is truthy, and then
      carries the parameter's value; the search becomes the name pattern. */
  function BuildQuery(f: Filters): (q: Query)
    ensures q.category.Some? <==> TextTruthy(f.category)
    ensures q.language.Some? <==> TextTruthy(f.language)
    ensures q.name.Some? <==> TextTruthy(f.search)
    ensures q.time == f.time && q.rate == f.rate && q.year == f.year
    ensures q.category.Some? ==> q.category == f.category
    ensures q.language.Some? ==> q.language == f.language
    ensures q.name.Some? ==> q.name == f.search
  {
    Query(if TextTruthy(f.category) then f.category else None,
          f.time,
          if TextTruthy(f.language) then f.language else None,
          f.rate,
          f.year,
          if TextTruthy(f.search) then f.search else None)
  }

  /** The document satisfies every condition of the query. */
  predicate Matches(q: Query, m: MovieDoc): (b: bool)
    ensures q == Query(None, None, None, None, None, None) ==> b
    ensures q.category.Some? && m.category != q.category.value ==> !b
    ensures q.name.Some? && |m.name| < |q.name.value| ==> !b
  {
    && (q.category.Some? ==> m.category == q.category.value)
    && (q.time.Some? ==> m.time == q.time.value)
    && (q.language.Some? ==> m.language == q.language.value)
    && (q.rate.Some? ==> m.rate == q.rate.value)
    && (q.year.Some? ==> m.year == q.year.value)
    && (q.name.Some? ==> ContainsIgnoringCase(m.name, q.name.value))
  }

  /** A movie is listed exactly when it agrees with every truthy parameter;
      falsy parameters constrain nothing. */
  lemma MatchesBuiltQuery(f: Filters, m: MovieDoc)
    ensures Matches(BuildQuery(f), m) <==>
      && (TextTruthy(f.category) ==> m.category == f.category.value)
      && (f.time.Some? ==> m.time == f.time.value)
      && (TextTruthy(f.language) ==> m.language == f.language.value)
      && (f.rate.Some? ==> m.rate == f.rate.value)
      && (f.year.Some? ==> m.year == f.year.value)
      && (TextTruthy(f.search) ==> ContainsIgnoringCase(m.name, f.search.value))
  {
  }

  /** Without parameters every movie matches. */
  lemma NoFiltersMatchEverything(m: MovieDoc)
    ensures Matches(BuildQuery(NoFilters), m)
  {
  }

  /** The movies of `store` that match `q`, in store order: each one as often as
      it occurs in the store, and nothing else. */
  function Filter(store: seq<MovieDoc>, q: Query): (r: seq<MovieDoc>)
    ensures forall m :: multiset(r)[m] == if Matches(q, m) then multiset(store)[m] else 0
    ensures |r| <= |store|
  {
    if store == [] then []
    else
      var rest := Filter(store[1..], q);
      assert store == [store[0]] + store[1..];
      if Matches(q, store[0]) then [store[0]] + rest else rest
  }

  /** The sort orders the store is asked for, both descending. */
  datatype SortKey = NewestFirst | HighestRated

  function KeyOf(k: SortKey, m: MovieDoc): (r: real)
  {
    match k
    case NewestFirst => m.createdAt as real
    case HighestRated => m.rate
  }

  predicate SortedDesc(k: SortKey, s: seq<MovieDoc>)
  {
    forall i, j :: 0 <= i < j < |s| ==> KeyOf(k, s[i]) >= KeyOf(k, s[j])
  }

  /** Puts `x` into a sequence before the first element with a smaller key. */
  function Insert(k: SortKey, x: MovieDoc, s: seq<MovieDoc>): (r: seq<MovieDoc>)
    ensures multiset(r) == multiset(s) + multiset{x}
  {
    if s == [] then [x]
    else if KeyOf(k, x) >= KeyOf(k, s[0]) then [x] + s
    else
      assert s == [s[0]] + s[1..];
      [s[0]] + Insert(k, x, s[1..])
  }

  /** A key no smaller than any in a descending sequence may go in front of it. */
  lemma PrependSorted(k: SortKey, y: MovieDoc, s: seq<MovieDoc>)
    requires SortedDesc(k, s)
    requires forall z :: z in s ==> KeyOf(k, y) >= KeyOf(k, z)
    ensures SortedDesc(k, [y] + s)
  {
  }

  /** Inserting into a descending sequence keeps it descending. */
  lemma {:induction false} InsertSorted(k: SortKey, x: MovieDoc, s: seq<MovieDoc>)
    requires SortedDesc(k, s)
    ensures SortedDesc(k, Insert(k, x, s))
  {
    if s == [] {
    } else if KeyOf(k, x) >= KeyOf(k, s[0]) {
      forall z | z in s ensures KeyOf(k, x) >= KeyOf(k, z) {
        var j :| 0 <= j < |s| && s[j] == z;
        if j > 0 {
          assert KeyOf(k, s[0]) >= KeyOf(k, s[j]);
        }
      }
      PrependSorted(k, x, s);
    } else {
      var tail := s[1..];
      var rest := Insert(k, x, tail);
      assert SortedDesc(k, tail) by {
        forall i, j | 0 <= i < j < |tail| ensures KeyOf(k, tail[i]) >= KeyOf(k, tail[j]) {
          assert tail[i] == s[i + 1] && tail[j] == s[j + 1];
        }
      }
      InsertSorted(k, x, tail);
      forall y | y in rest ensures KeyOf(k, s[0]) >= KeyOf(k, y) {
        assert y in multiset(rest);
        if y != x {
          assert y in multiset(tail);
          var j :| 0 <= j < |tail| && tail[j] == y;
          assert s[j + 1] == y;
        }
      }
      PrependSorted(k, s[0], rest);
    }
  }

  /** The store's sort: a descending permutation of its input. */
  function SortDesc(k: SortKey, s: seq<MovieDoc>): (r: seq<MovieDoc>)
    ensures multiset(r) == multiset(s)
  {
    if s == [] then []
    else
      assert s == [s[0]] + s[1..];
      Insert(k, s[0], SortDesc(k, s[1..]))
  }

  lemma {:induction false} SortDescSorted(k: SortKey, s: seq<MovieDoc>)
    ensures SortedDesc(k, SortDesc(k, s))
  {
    if s != [] {
      SortDescSorted(k, s[1..]);
      InsertSorted(k, s[0], SortDesc(k, s[1..]));
    }
  }

  /** `.skip(skip).limit(count)` on an already sorted result. */
  function Window(s: seq<MovieDoc>, skip: nat, count: nat): (r: seq<MovieDoc>)
    ensures |r| <= count
    ensures forall i :: 0 <= i < |r| ==> skip + i < |s| && r[i] == s[skip + i]
    ensures |r| == if skip >= |s| then 0 else if |s| - skip < count then |s| - skip else count
  {
    var lo := if skip < |s| then skip else |s|;
    var hi := if skip + count < |s| then skip + count else |s|;
    s[lo..hi]
  }

  /** The page number, the page size and the number of documents skipped. */
  datatype Paging = Paging(page: int, limit: int, skip: int)

  function PagingOf(pr: PageRequest): (r: Paging)
    ensures r.limit != 0
    ensures r.skip == (r.page - 1) * r.limit
    ensures (pr.pageNumber.None? || pr.pageNumber == Some(0)) <==> r.page == 1 && pr.pageNumber != Some(1)
    ensures (pr.limit.None? || pr.limit == Some(0)) <==> r.limit == 2 && pr.limit != Some(2)
    ensures pr.pageNumber.Some? && pr.pageNumber.value != 0 ==> r.page == pr.pageNumber.value
    ensures pr.limit.Some? && pr.limit.value != 0 ==> r.limit == pr.limit.value
  {
    var page := OrInt(pr.pageNumber, 1);
    var limit := OrInt(pr.limit, 2);
    Paging(page, limit, (page - 1) * limit)
  }

  /** `Math.ceil(a / b)` for a non-zero divisor. */
  function CeilDiv(a: nat, b: int): (r: int)
    requires b != 0
    ensures b > 0 ==> (r - 1) * b < a <= r * b
    ensures b < 0 ==> r * b <= a < (r - 1) * b
  {
    if b > 0 then
      if a % b == 0 then a / b else a / b + 1
    else
      -(a / -b)
  }

  function Abs(x: int): (r: nat) { if x < 0 then -x else x }

  /** The listing reply: the store rejected the query (a negative skip), no movie
      matched, or one page of the matches with the page metadata. */
  datatype ListReply =
    | StoreFailure
    | NotFound
    | Found(movies: seq<MovieDoc>, page: int, pages: int, totalMovies: nat)

  /** The newest-first page of matching movies. A negative skip is refused by the
      store; a negative limit returns at most |limit| documents. */
  function ListMovies(store: seq<MovieDoc>, f: Filters, pr: PageRequest): (r: ListReply)
    ensures r.StoreFailure? <==> PagingOf(pr).skip < 0
    ensures r.NotFound? <==> PagingOf(pr).skip >= 0 && forall m :: m in store ==> !Matches(BuildQuery(f), m)
    ensures r.Found? ==>
      && r.page == PagingOf(pr).page
      && r.totalMovies == |Filter(store, BuildQuery(f))| > 0
      && r.pages == CeilDiv(r.totalMovies, PagingOf(pr).limit)
      && r.movies == Window(SortDesc(NewestFirst, Filter(store, BuildQuery(f))), PagingOf(pr).skip, Abs(PagingOf(pr).limit))
      && |r.movies| <= Abs(PagingOf(pr).limit)
      && SortedDesc(NewestFirst, r.movies)
      && (forall m :: m in r.movies ==> m in store && Matches(BuildQuery(f), m))
  {
    var q := BuildQuery(f);
    var paging := PagingOf(pr);
    if paging.skip < 0 then StoreFailure
    else
      var matching := Filter(store, q);
      NoMatchIffEmpty(store, q);
      if |matching| == 0 then NotFound
      else
        var sorted := SortDesc(NewestFirst, matching);
        var page := Window(sorted, paging.skip, Abs(paging.limit));
        SortDescSorted(NewestFirst, matching);
        WindowSorted(NewestFirst, sorted, paging.skip, Abs(paging.limit));
        WindowOfMatches(store, q, paging.skip, Abs(paging.limit));
        Found(page, paging.page, CeilDiv(|matching|, paging.limit), |matching|)
  }

  /** Nothing is found exactly when no movie of the store matches. */
  lemma NoMatchIffEmpty(store: seq<MovieDoc>, q: Query)
    ensures |Filter(store, q)| == 0 <==> forall m :: m in store ==> !Matches(q, m)
  {
  }

  /** A window of a descending sequence is descending. */
  lemma WindowSorted(k: SortKey, s: seq<MovieDoc>, skip: nat, count: nat)
    requires SortedDesc(k, s)
    ensures SortedDesc(k, Window(s, skip, count))
  {
  }

  /** Every movie on a page of the sorted matches is a matching movie of the store. */
  lemma WindowOfMatches(store: seq<MovieDoc>, q: Query, skip: nat, count: nat)
    ensures var w := Window(SortDesc(NewestFirst, Filter(store, q)), skip, count);
      forall m :: m in w ==> m in store && Matches(q, m)
  {
    var matching := Filter(store, q);
    var sorted := SortDesc(NewestFirst, matching);
    var w := Window(sorted, skip, count);
    forall m | m in w ensures m in store && Matches(q, m) {
      var i :| 0 <= i < |w| && w[i] == m;
      assert m == sorted[skip + i];
      assert m in multiset(sorted);
      assert multiset(matching)[m] > 0;
    }
  }

  /** Movie `i` of a sorted result is shown on page `i / limit + 1`, at position `i % limit`. */
  lemma EveryMovieOnItsPage(s: seq<MovieDoc>, limit: int, i: nat)
    requires limit > 0 && i < |s|
    ensures var w := Window(s, (i / limit) * limit, limit);
      i % limit < |w| && w[i % limit] == s[i]
  {
    var skip := (i / limit) * limit;
    assert skip + i % limit == i;
  }

  /** With a positive limit, `pages` is exactly the number of non-empty pages:
      page p (from 1) holds movies if and only if p <= pages. */
  lemma PagesCountNonEmptyPages(s: seq<MovieDoc>, limit: int, p: int)
    requires limit > 0 && p >= 1
    ensures Window(s, (p - 1) * limit, limit) != [] <==> p <= CeilDiv(|s|, limit)
  {
    var c := CeilDiv(|s|, limit);
    if p <= c {
      assert (p - 1) * limit <= (c - 1) * limit by {
        MulMonotone(p - 1, c - 1, limit);
      }
    } else {
      assert c * limit <= (p - 1) * limit by {
        MulMonotone(c, p - 1, limit);
      }
    }
  }

  lemma MulMonotone(a: int, b: int, n: int)
    requires a <= b && n > 0
    ensures a * n <= b * n
  {
    assert b * n - a * n == (b - a) * n;
  }

  /** When every movie matches, the filter keeps the store as it is. */
  lemma {:induction false} FilterKeepsAllMatching(store: seq<MovieDoc>, q: Query)
    requires forall m :: m in store ==> Matches(q, m)
    ensures Filter(store, q) == store
  {
    if store != [] {
      FilterKeepsAllMatching(store[1..], q);
    }
  }

  /** Five movies, two per page: the third page holds one movie, and there are
      three pages. */
  lemma FiveMoviesThirdPage(store: seq<MovieDoc>)
    requires |store| == 5
    ensures var r := ListMovies(store, NoFilters, PageRequest(Some(3), Some(2)));
      r.Found? && |r.movies| == 1 && r.pages == 3 && r.totalMovies == 5 && r.page == 3
  {
    var q := BuildQuery(NoFilters);
    forall m | m in store ensures Matches(q, m) {
      NoFiltersMatchEverything(m);
    }
    FilterKeepsAllMatching(store, q);
    var sorted := SortDesc(NewestFirst, store);
    assert |sorted| == 5 by {
      assert |multiset(sorted)| == |multiset(store)|;
    }
    assert PagingOf(PageRequest(Some(3), Some(2))) == Paging(3, 2, 4);
    assert |Window(sorted, 4, 2)| == 1;
    assert CeilDiv(5, 2) == 3;
  }

  /** The category "Action" with the search "man" lists exactly the Action
      movies whose name contains "man" in any case. */
  lemma ActionMoviesNamedMan(m: MovieDoc)
    ensures Matches(BuildQuery(NoFilters.(category := Some("Action"), search := Some("man"))), m)
        <==> m.category == "Action" && ContainsIgnoringCase(m.name, "man")
  {
  }

  /** The ten best rated movies, best first. */
  function TopRated(store: seq<MovieDoc>): (r: seq<MovieDoc>)
    ensures |r| == if |store| < 10 then |store| else 10
    ensures SortedDesc(HighestRated, r)
    ensures multiset(r) <= multiset(store)
    ensures forall i, m :: 0 <= i < |r| && m in multiset(store) - multiset(r) ==> m.rate <= r[i].rate
  {
    var s := SortDesc(HighestRated, store);
    var n := if |s| < 10 then |s| else 10;
    assert |s| == |store| by {
      assert |multiset(s)| == |multiset(store)|;
    }
    SortDescSorted(HighestRated, store);
    WindowSorted(HighestRated, s, 0, n);
    TopRatedBeatsTheRest(s, n);
    assert s[..n] == Window(s, 0, n);
    s[..n]
  }

  /** In a sequence sorted by rate, nothing after the first n rates higher than
      anything among them. */
  lemma TopRatedBeatsTheRest(s: seq<MovieDoc>, n: nat)
    requires n <= |s| && SortedDesc(HighestRated, s)
    ensures multiset(s[..n]) <= multiset(s)
    ensures forall i, m :: 0 <= i < n && m in multiset(s) - multiset(s[..n]) ==> m.rate <= s[i].rate
  {
    assert s == s[..n] + s[n..];
    assert multiset(s) == multiset(s[..n]) + multiset(s[n..]);
    forall i, m | 0 <= i < n && m in multiset(s) - multiset(s[..n]) ensures m.rate <= s[i].rate {
      assert m in multiset(s[n..]);
      var j :| 0 <= j < |s[n..]| && s[n..][j] == m;
      assert KeyOf(HighestRated, s[i]) >= KeyOf(HighestRated, s[n + j]);
    }
  }
}

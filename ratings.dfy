/** Rating aggregation and ordering over a location's reviews: the mean that
    both the location listing and the reviews page compute per request, and
    the rating order of the reviews page. */
module Ratings {
  import opened Tables
  import opened Models

  /** `sum(r.rating for r in reviews)`. */
  function TotalRating(rs: Table<Review>): int {
    if |rs| == 0 then 0 else rs[0].val.rating + TotalRating(rs[1..])
  }

  /** The mean rating, 0 when there are no reviews. The source rounds the mean to
      one decimal place; the model keeps the exact mean. */
  function AverageRating(rs: Table<Review>): (avg: real)
    ensures |rs| == 0 ==> avg == 0.0
    ensures |rs| > 0 ==> avg * (|rs| as real) == TotalRating(rs) as real
  {
    if |rs| == 0 then 0.0 else TotalRating(rs) as real / (|rs| as real)
  }

  lemma {:induction false} TotalRatingAppend(a: Table<Review>, b: Table<Review>)
    ensures TotalRating(a + b) == TotalRating(a) + TotalRating(b)
  {
    if |a| == 0 {
      assert a + b == b;
    } else {
      TotalRatingAppend(a[1..], b);
      assert (a + b)[1..] == a[1..] + b;
    }
  }

  /** The total, hence the mean, does not depend on the order the reviews come in:
      the listing (rowid order) and the reviews page (rating order) agree. */
  lemma {:induction false} TotalRatingPermutation(a: Table<Review>, b: Table<Review>)
    requires multiset(a) == multiset(b)
    ensures TotalRating(a) == TotalRating(b)
    decreases |a|
  {
    if |a| == 0 {
      assert |b| == |multiset(b)| == 0;
    } else {
      var x := a[0];
      assert x in multiset(b);
      var j :| 0 <= j < |b| && b[j] == x;
      var rest := b[..j] + b[j + 1..];
      assert b == b[..j] + ([x] + b[j + 1..]);
      assert multiset(b) == multiset(rest) + multiset{x};
      assert a == [x] + a[1..];
      assert multiset(a[1..]) == multiset(a) - multiset{x};
      assert multiset(rest) == multiset(b) - multiset{x};
      TotalRatingPermutation(a[1..], rest);
      TotalRatingAppend(b[..j], [x] + b[j + 1..]);
      TotalRatingAppend(b[..j], b[j + 1..]);
      assert ([x] + b[j + 1..])[1..] == b[j + 1..];
    }
  }

  lemma AverageRatingPermutation(a: Table<Review>, b: Table<Review>)
    requires multiset(a) == multiset(b)
    ensures AverageRating(a) == AverageRating(b)
  {
    TotalRatingPermutation(a, b);
    assert |a| == |multiset(a)| == |multiset(b)| == |b|;
  }

  lemma {:induction false} TotalRatingBounds(rs: Table<Review>, lo: int, hi: int)
    requires forall k :: 0 <= k < |rs| ==> lo <= rs[k].val.rating <= hi
    ensures lo * |rs| <= TotalRating(rs) <= hi * |rs|
  {
    if |rs| > 0 {
      TotalRatingBounds(rs[1..], lo, hi);
      assert lo * |rs| == lo + lo * |rs[1..]|;
      assert hi * |rs| == hi + hi * |rs[1..]|;
    }
  }

  /** When every rating lies in [lo, hi] (say the intended 1 to 5), so does the mean. */
  lemma AverageRatingWithin(rs: Table<Review>, lo: int, hi: int)
    requires |rs| > 0
    requires forall k :: 0 <= k < |rs| ==> lo <= rs[k].val.rating <= hi
    ensures lo as real <= AverageRating(rs) <= hi as real
  {
    TotalRatingBounds(rs, lo, hi);
    var n := |rs| as real;
    var total := TotalRating(rs) as real;
    ProductAsReal(lo, |rs|);
    ProductAsReal(hi, |rs|);
    QuotientBounds(lo as real, hi as real, total, n);
  }

  lemma ProductAsReal(a: int, b: int)
    ensures (a * b) as real == (a as real) * (b as real)
  {
  }

  lemma QuotientBounds(lo: real, hi: real, total: real, n: real)
    requires n > 0.0 && lo * n <= total <= hi * n
    ensures lo <= total / n <= hi
  {
  }

  // ---------------------------------------------------------------------
  // `order_by(Review.rating.asc())` / `.desc()`

  predicate Precedes(a: Row<Review>, b: Row<Review>, ascending: bool) {
    if ascending then a.val.rating <= b.val.rating else a.val.rating >= b.val.rating
  }

  ghost predicate SortedByRating(s: Table<Review>, ascending: bool) {
    forall i, j :: 0 <= i < j < |s| ==> Precedes(s[i], s[j], ascending)
  }

  function InsertByRating(x: Row<Review>, s: Table<Review>, ascending: bool): (r: Table<Review>)
    ensures multiset(r) == multiset(s) + multiset{x}
  {
    if |s| == 0 then [x]
    else if Precedes(x, s[0], ascending) then
      assert s == [s[0]] + s[1..];
      [x] + s
    else
      assert s == [s[0]] + s[1..];
      [s[0]] + InsertByRating(x, s[1..], ascending)
  }

  lemma {:induction false} InsertByRatingSorted(x: Row<Review>, s: Table<Review>, ascending: bool)
    requires SortedByRating(s, ascending)
    ensures SortedByRating(InsertByRating(x, s, ascending), ascending)
  {
    if |s| > 0 && !Precedes(x, s[0], ascending) {
      var tail := InsertByRating(x, s[1..], ascending);
      InsertByRatingSorted(x, s[1..], ascending);
      forall k | 0 <= k < |tail| ensures Precedes(s[0], tail[k], ascending) {
        assert tail[k] in multiset(tail);
        if tail[k] != x {
          assert tail[k] in multiset(s[1..]);
          var j :| 0 <= j < |s[1..]| && s[1..][j] == tail[k];
          assert s[j + 1] == tail[k];
        }
      }
    }
  }

  /** The reviews in rating order (ties in an unspecified but fixed order). */
  function SortByRating(s: Table<Review>, ascending: bool): (r: Table<Review>)
    ensures multiset(r) == multiset(s)
    ensures |r| == |s|
  {
    if |s| == 0 then []
    else
      assert s == [s[0]] + s[1..];
      var r := InsertByRating(s[0], SortByRating(s[1..], ascending), ascending);
      assert |r| == |multiset(r)|;
      r
  }

  lemma {:induction false} SortByRatingSorted(s: Table<Review>, ascending: bool)
    ensures SortedByRating(SortByRating(s, ascending), ascending)
  {
    if |s| > 0 {
      SortByRatingSorted(s[1..], ascending);
      InsertByRatingSorted(s[0], SortByRating(s[1..], ascending), ascending);
    }
  }
}

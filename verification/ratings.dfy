/**
 * Rating submission (backend/controllers/bookCtrl.js, addRating): the
 * duplicate scan, the sum over all entries, the average rounded to one
 * decimal, and the book that results from appending one rating.
 */
module Ratings {
  import opened BookSchema

  /** The total of all scores, summed from the first entry to the last. */
  function Sum(rs: seq<Rating>): (total: int)
  {
    if rs == [] then 0 else Sum(rs[..|rs| - 1]) + rs[|rs| - 1].rating
  }

  /** The total of two runs of entries is the sum of their totals. */
  lemma {:induction false} SumAppend(a: seq<Rating>, b: seq<Rating>)
    ensures Sum(a + b) == Sum(a) + Sum(b)
  {
    if b != [] {
      var init := b[..|b| - 1];
      SumAppend(a, init);
      assert (a + b)[..|a + b| - 1] == a + init;
    } else {
      assert a + b == a;
    }
  }

  /**
   * The duplicate scan: the first index whose entry
   * belongs to `uid`, or -1.
   */
  function FindRater(rs: seq<Rating>, uid: string, from: nat := 0): (r: int)
    requires from <= |rs|
    ensures r == -1 <==> forall i :: from <= i < |rs| ==> rs[i].userId != uid
    ensures r != -1 ==> from <= r < |rs| && rs[r].userId == uid
    ensures r != -1 ==> forall i :: from <= i < r ==> rs[i].userId != uid
    decreases |rs| - from
  {
    if from == |rs| then -1
    else if rs[from].userId == uid then from
    else FindRater(rs, uid, from + 1)
  }

  /** No user holds two entries. */
  predicate UniqueRaters(rs: seq<Rating>)
  {
    forall i, j :: 0 <= i < j < |rs| ==> rs[i].userId != rs[j].userId
  }

  /**
   * Ten times the mean, rounded to an integer, computed exactly: the number of tenths
   * nearest to the mean, a half rounded up.
   */
  function RoundedTenths(total: int, count: nat): (t: int)
    requires count > 0
    ensures 2 * count * t <= 20 * total + count < 2 * count * (t + 1)
  {
    (20 * total + count) / (2 * count)
  }

  /** The average of a non-empty list of ratings, in tenths. */
  function AverageOf(rs: seq<Rating>): (tenths: int)
    requires rs != []
  {
    RoundedTenths(Sum(rs), |rs|)
  }

  /** The cached average agrees with the ratings it summarises (0 for none). */
  predicate AverageConsistent(b: Book)
  {
    b.averageRating == if b.ratings == [] then 0 else AverageOf(b.ratings)
  }

  /** The book after appending the caller's entry and recomputing the average. */
  function Rated(b: Book, caller: string, value: int): (nb: Book)
    ensures nb.ratings == b.ratings + [Rating(caller, value)]
    ensures nb.(ratings := b.ratings, averageRating := b.averageRating) == b
    ensures AverageConsistent(nb)
  {
    var rs := b.ratings + [Rating(caller, value)];
    b.(ratings := rs, averageRating := AverageOf(rs))
  }

  /** Every entry lies between `lo` and `hi`. */
  predicate AllWithin(rs: seq<Rating>, lo: int, hi: int)
  {
    forall i :: 0 <= i < |rs| ==> lo <= rs[i].rating <= hi
  }

  /** Scores within [lo, hi] sum to within [count * lo, count * hi]. */
  lemma {:induction false} SumWithin(rs: seq<Rating>, lo: int, hi: int)
    requires AllWithin(rs, lo, hi)
    ensures |rs| * lo <= Sum(rs) <= |rs| * hi
  {
    if rs != [] {
      var init := rs[..|rs| - 1];
      assert AllWithin(init, lo, hi) by {
        forall i | 0 <= i < |init| ensures lo <= init[i].rating <= hi {
          assert init[i] == rs[i];
        }
      }
      SumWithin(init, lo, hi);
      assert |rs| * lo == |init| * lo + lo;
      assert |rs| * hi == |init| * hi + hi;
    }
  }

  /** Rounding keeps a mean that lies in [lo, hi] within [10 * lo, 10 * hi] tenths. */
  lemma RoundedWithin(total: int, count: nat, lo: int, hi: int)
    requires count > 0
    requires count * lo <= total <= count * hi
    ensures 10 * lo <= RoundedTenths(total, count) <= 10 * hi
  {
    var t := RoundedTenths(total, count);
    var c2 := 2 * count;
    assert c2 * t <= 20 * total + count;
    assert 20 * total + count < c2 * (t + 1);
    assert 20 * total <= c2 * (10 * hi) by {
      assert 20 * (count * hi) == c2 * (10 * hi);
    }
    assert c2 * (10 * lo) <= 20 * total by {
      assert 20 * (count * lo) == c2 * (10 * lo);
    }
    // c2 * t < c2 * (10 * hi + 1), so t <= 10 * hi
    assert c2 * t < c2 * (10 * hi + 1);
    ScaleLess(c2, t, 10 * hi + 1);
    // c2 * (10 * lo) < c2 * (t + 1), so 10 * lo <= t
    assert c2 * (10 * lo) < c2 * (t + 1);
    ScaleLess(c2, 10 * lo, t + 1);
  }

  /** Dividing a strict inequality by a positive factor. */
  lemma ScaleLess(c: int, x: int, y: int)
    requires c > 0 && c * x < c * y
    ensures x < y
  {
  }

  /**
   * The average addRating stores: with every score in [lo, hi] the average
   * lies in [lo, hi] (counted in tenths), whatever the range is.
   */
  lemma AverageWithin(rs: seq<Rating>, lo: int, hi: int)
    requires rs != [] && AllWithin(rs, lo, hi)
    ensures 10 * lo <= AverageOf(rs) <= 10 * hi
  {
    SumWithin(rs, lo, hi);
    RoundedWithin(Sum(rs), |rs|, lo, hi);
  }

  /**
   * What addRating does to a book the caller has not rated yet: the old
   * entries stay in place with the new one after them, nothing else but the
   * average changes, the average is the rounded mean of all entries, one
   * rating per user still holds, and the record stays valid for `save`
   * exactly when the caller's id is non-empty, whatever the score.
   */
  lemma {:induction false} RatedSpec(b: Book, caller: string, value: int)
    requires FindRater(b.ratings, caller) == -1
    ensures var nb := Rated(b, caller, value);
      && |nb.ratings| == |b.ratings| + 1
      && nb.ratings[..|b.ratings|] == b.ratings
      && nb.ratings[|b.ratings|] == Rating(caller, value)
      && nb.(ratings := b.ratings, averageRating := b.averageRating) == b
      && Sum(nb.ratings) == Sum(b.ratings) + value
      && AverageConsistent(nb)
      && 2 * |nb.ratings| * nb.averageRating <= 20 * Sum(nb.ratings) + |nb.ratings|
      && 20 * Sum(nb.ratings) + |nb.ratings| < 2 * |nb.ratings| * (nb.averageRating + 1)
      && (UniqueRaters(b.ratings) ==> UniqueRaters(nb.ratings))
      && (ValidRecord(b) ==> (ValidRecord(nb) <==> caller != ""))
  {
  }

  /** The book after one addRating update per entry, in order. */
  function RateAll(b: Book, entries: seq<Rating>): (rated: Book)
  {
    if entries == [] then b
    else
      var last := entries[|entries| - 1];
      Rated(RateAll(b, entries[..|entries| - 1]), last.userId, last.rating)
  }

  /**
   * Feeding ratings one at a time to a fresh book (no ratings, average 0)
   * leaves exactly those entries, in order, and an average that is the
   * rounded mean of all of them: the running update never drifts from a
   * recomputation from scratch.
   */
  lemma {:induction false} RateAllAverages(b: Book, entries: seq<Rating>)
    requires b.ratings == [] && b.averageRating == 0
    ensures RateAll(b, entries).ratings == entries
    ensures AverageConsistent(RateAll(b, entries))
  {
    if entries != [] {
      var init := entries[..|entries| - 1];
      RateAllAverages(b, init);
      assert init + [entries[|entries| - 1]] == entries;
    }
  }

  /** The averages of the worked examples: [4, 5] gives 4.5 and [3, 3, 4] gives 3.3. */
  lemma WorkedAverages()
    ensures AverageOf([Rating("a", 4), Rating("b", 5)]) == 45
    ensures AverageOf([Rating("a", 3), Rating("b", 3), Rating("c", 4)]) == 33
  {
    var two := [Rating("a", 4), Rating("b", 5)];
    assert two[..1] == [Rating("a", 4)];
    assert Sum(two) == 9;
    var three := [Rating("a", 3), Rating("b", 3), Rating("c", 4)];
    assert three[..2] == [Rating("a", 3), Rating("b", 3)];
    assert three[..2][..1] == [Rating("a", 3)];
    assert Sum(three) == 10;
  }
}

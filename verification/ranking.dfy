/**
 * The best-rated query of backend/controllers/bookCtrl.js
 * (getBestRatingBooks): all books sorted by `averageRating`, highest first,
 * limited to three.
 */
module Ranking {
  import opened BookSchema

  /** How many books the query returns at most. */
  const Limit: nat := 3

  /** Highest average first. */
  predicate SortedDesc(s: seq<Book>)
  {
    forall i, j :: 0 <= i < j < |s| ==> s[i].averageRating >= s[j].averageRating
  }

  /** Puts `x` in front of the first entry of `t` whose average is strictly lower. */
  function Insert(x: Book, t: seq<Book>): (r: seq<Book>)
  {
    if t == [] || x.averageRating >= t[0].averageRating then [x] + t
    else [t[0]] + Insert(x, t[1..])
  }

  /** Every average in `s` is at most `bound`. */
  predicate AllAtMost(s: seq<Book>, bound: int)
  {
    forall i :: 0 <= i < |s| ==> s[i].averageRating <= bound
  }

  /** A book rated at least as high as all of a sorted list can go in front of it. */
  lemma SortedCons(h: Book, t: seq<Book>)
    requires SortedDesc(t) && AllAtMost(t, h.averageRating)
    ensures SortedDesc([h] + t)
  {
  }

  /** The tail of a sorted list is sorted and bounded by its head. */
  lemma SortedTail(t: seq<Book>)
    requires SortedDesc(t) && t != []
    ensures SortedDesc(t[1..]) && AllAtMost(t[1..], t[0].averageRating)
  {
  }

  /** Inserting adds exactly `x` to the books of `t`. */
  lemma {:induction false} InsertMembers(x: Book, t: seq<Book>)
    ensures multiset(Insert(x, t)) == multiset(t) + multiset{x}
  {
    if !(t == [] || x.averageRating >= t[0].averageRating) {
      InsertMembers(x, t[1..]);
      assert t == [t[0]] + t[1..];
    }
  }

  /** Inserting a book under a bound into a list under that bound stays under it. */
  lemma {:induction false} InsertBound(x: Book, t: seq<Book>, bound: int)
    requires AllAtMost(t, bound) && x.averageRating <= bound
    ensures AllAtMost(Insert(x, t), bound)
  {
    if !(t == [] || x.averageRating >= t[0].averageRating) {
      var tail := t[1..];
      assert AllAtMost(tail, bound) by {
        forall i | 0 <= i < |tail| ensures tail[i].averageRating <= bound {
          assert tail[i] == t[i + 1];
        }
      }
      InsertBound(x, tail, bound);
      var r := Insert(x, t);
      forall i | 0 <= i < |r| ensures r[i].averageRating <= bound {
        if i > 0 {
          assert r[i] == Insert(x, tail)[i - 1];
        }
      }
    }
  }

  /** Inserting into a sorted list keeps it sorted. */
  lemma {:induction false} InsertSorted(x: Book, t: seq<Book>)
    requires SortedDesc(t)
    ensures SortedDesc(Insert(x, t))
  {
    if t == [] || x.averageRating >= t[0].averageRating {
      if t != [] {
        SortedTail(t);
        assert AllAtMost(t, x.averageRating) by {
          forall i | 0 <= i < |t| ensures t[i].averageRating <= x.averageRating {
            if i > 0 {
              assert t[i] == t[1..][i - 1];
            }
          }
        }
      }
      SortedCons(x, t);
    } else {
      SortedTail(t);
      InsertSorted(x, t[1..]);
      InsertBound(x, t[1..], t[0].averageRating);
      SortedCons(t[0], Insert(x, t[1..]));
    }
  }

  /**
   * The sort on `averageRating`, descending: the books reordered, highest
   * average first. The database promises no order among equal averages, and
   * no contract here states one.
   */
  function SortByAverage(s: seq<Book>): (r: seq<Book>)
    ensures SortedDesc(r)
    ensures multiset(r) == multiset(s) && |r| == |s|
  {
    if s == [] then []
    else
      var rest := SortByAverage(s[1..]);
      InsertSorted(s[0], rest);
      InsertMembers(s[0], rest);
      assert s == [s[0]] + s[1..];
      assert |multiset(Insert(s[0], rest))| == |multiset(s)|;
      Insert(s[0], rest)
  }

  /** The first `k` books of a sorted arrangement of `s` are sorted books of `s`. */
  lemma SortedPrefix(s: seq<Book>, sorted: seq<Book>, k: nat)
    requires SortedDesc(sorted) && multiset(sorted) == multiset(s) && k <= |sorted|
    ensures SortedDesc(sorted[..k])
    ensures multiset(sorted[..k]) <= multiset(s)
    ensures forall i :: 0 <= i < k ==> sorted[..k][i] in s
  {
    var r := sorted[..k];
    assert sorted == r + sorted[k..];
    forall i | 0 <= i < k ensures r[i] in s {
      assert r[i] == sorted[i];
      assert r[i] in multiset(sorted);
    }
  }

  /** No book of `s` left out of that prefix has a strictly higher average than one in it. */
  lemma PrefixBeatsRest(s: seq<Book>, sorted: seq<Book>, k: nat)
    requires SortedDesc(sorted) && multiset(sorted) == multiset(s) && k <= |sorted|
    ensures forall x, i :: x in s && x !in sorted[..k] && 0 <= i < k ==>
      x.averageRating <= sorted[..k][i].averageRating
  {
    var r := sorted[..k];
    forall x, i | x in s && x !in r && 0 <= i < k
      ensures x.averageRating <= r[i].averageRating
    {
      assert x in multiset(sorted);
      var j :| 0 <= j < |sorted| && sorted[j] == x;
      assert r[i] == sorted[i];
    }
  }

  /**
   * The sort descending by average, limited to three: as many books as there are, up
   * to three, highest average first, each one a listed book, and no book left
   * out has a strictly higher average than one returned.
   */
  function BestRated(s: seq<Book>): (r: seq<Book>)
    ensures |r| == if |s| < Limit then |s| else Limit
    ensures SortedDesc(r)
    ensures multiset(r) <= multiset(s)
    ensures forall i :: 0 <= i < |r| ==> r[i] in s
    ensures forall x, i :: x in s && x !in r && 0 <= i < |r| ==>
      x.averageRating <= r[i].averageRating
  {
    var sorted := SortByAverage(s);
    var k := if |s| < Limit then |s| else Limit;
    SortedPrefix(s, sorted, k);
    PrefixBeatsRest(s, sorted, k);
    sorted[..k]
  }
}

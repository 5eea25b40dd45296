/**
 * The request handlers of backend/controllers/bookCtrl.js over a book
 * collection and the `images/` directory. Each handler answers with the
 * HTTP status it sends; failures of the database are parameters.
 */
module Catalogue {
  import opened Wrappers
  import opened BookSchema
  import opened ImagePath
  import opened Ratings
  import opened Ranking
  import opened Records

  /** The statuses the handlers answer with. */
  datatype Status = Ok | Created | BadRequest | Forbidden | NotFound | ServerError
  {
    function Code(): int
    {
      match this
      case Ok => 200
      case Created => 201
      case BadRequest => 400
      case Forbidden => 403
      case NotFound => 404
      case ServerError => 500
    }
  }

  /** No id is listed twice. */
  predicate Distinct(ids: seq<string>)
  {
    forall i, j :: 0 <= i < j < |ids| ==> ids[i] != ids[j]
  }

  /** The books of `m` in the order `ids` lists them. */
  function ListOf(m: map<string, Book>, ids: seq<string>): (r: seq<Book>)
    requires forall i :: 0 <= i < |ids| ==> ids[i] in m
    ensures |r| == |ids|
    ensures forall i :: 0 <= i < |ids| ==> r[i] == m[ids[i]]
  {
    if ids == [] then [] else [m[ids[0]]] + ListOf(m, ids[1..])
  }

  /** `ids` without `x`; a list that does not hold `x` is returned as it is. */
  function Without(ids: seq<string>, x: string): (r: seq<string>)
    ensures x !in ids ==> r == ids
    ensures forall y :: y in r <==> y in ids && y != x
    ensures Distinct(ids) ==> Distinct(r)
  {
    if ids == [] then []
    else if ids[0] == x then Without(ids[1..], x)
    else
      var rest := Without(ids[1..], x);
      assert Distinct(ids) ==> ids[0] !in ids[1..];
      [ids[0]] + rest
  }

  /** A list without repetitions is as long as the set of its elements. */
  lemma {:induction false} DistinctCard(ids: seq<string>, keys: set<string>)
    requires Distinct(ids)
    requires forall k :: k in keys <==> k in ids
    ensures |keys| == |ids|
  {
    if ids != [] {
      var rest := keys - {ids[0]};
      forall k ensures k in rest <==> k in ids[1..] {
        if k in ids[1..] {
          var j :| 0 <= j < |ids[1..]| && ids[1..][j] == k;
          assert ids[j + 1] == k;
        }
      }
      DistinctCard(ids[1..], rest);
    }
  }

  /** The book collection and the image files the handlers use. */
  class Catalogue {
    /** The stored books by `_id`. */
    var books: map<string, Book>
    /** The ids in the order the collection lists its documents. */
    var order: seq<string>
    /** The file names in the `images/` directory. */
    var images: set<string>

    ghost predicate Valid()
      reads this
    {
      && (forall id :: id in books ==> books[id].id == id)
      && Distinct(order)
      && (forall id :: id in order <==> id in books)
    }

    /** The books in the collection's order, as a query for all documents returns them. */
    function Listing(): (r: seq<Book>)
      reads this
      requires Valid()
    {
      ListOf(books, order)
    }

    constructor (files: set<string>)
      ensures Valid()
      ensures books == map[] && order == [] && images == files
    {
      books := map[];
      order := [];
      images := files;
    }

    /** getAllBooks: every stored book, each once, in the collection's order. */
    method GetAllBooks(lookupFails: bool) returns (status: Status, list: seq<Book>)
      requires Valid()
      ensures lookupFails ==> status == BadRequest && list == []
      ensures !lookupFails ==> status == Ok && list == Listing()
      ensures !lookupFails ==> |list| == |books|
      ensures !lookupFails ==> forall b :: b in list <==> b in books.Values
    {
      if lookupFails {
        return BadRequest, [];
      }
      list := ListOf(books, order);
      status := Ok;
      DistinctCard(order, books.Keys);
      forall b | b in books.Values ensures b in list {
        var id :| id in books && books[id] == b;
        var i :| 0 <= i < |order| && order[i] == id;
        assert list[i] == b;
      }
    }

    /** getBookById: the book with that id, or 404. */
    method GetBookById(id: string, lookupFails: bool) returns (status: Status, book: Option<Book>)
      requires Valid()
      ensures lookupFails ==> status == BadRequest && book == None
      ensures !lookupFails && id !in books ==> status == NotFound && book == None
      ensures !lookupFails && id in books ==> status == Ok && book == Some(books[id]) && book.value.id == id
    {
      if lookupFails {
        return BadRequest, None;
      }
      if id !in books {
        return NotFound, None;
      }
      return Ok, Some(books[id]);
    }

    /**
     * getBestRatingBooks: up to three stored books, highest average first,
     * none of the others rated strictly higher than one returned.
     */
    method GetBestRatingBooks(lookupFails: bool) returns (status: Status, list: seq<Book>)
      requires Valid()
      ensures lookupFails ==> status == BadRequest && list == []
      ensures !lookupFails ==> status == Ok
      ensures !lookupFails ==> |list| == if |books| < Limit then |books| else Limit
      ensures !lookupFails ==> SortedDesc(list)
      ensures !lookupFails ==> multiset(list) <= multiset(Listing())
      ensures !lookupFails ==> forall i :: 0 <= i < |list| ==> list[i] in books.Values
      ensures !lookupFails ==> forall b, i :: b in books.Values && b !in list && 0 <= i < |list| ==>
        b.averageRating <= list[i].averageRating
    {
      if lookupFails {
        return BadRequest, [];
      }
      var _, all := GetAllBooks(false);
      list := BestRated(all);
      status := Ok;
    }

    /**
     * addBook: 500 when no file came with the request; otherwise the new
     * record (owner the caller, image the uploaded file, no ratings, average
     * 0) is saved under a fresh id and the answer is 201, unless validation
     * or the write fails (400, nothing stored). The image directory is not
     * touched.
     */
    method AddBook(caller: string, payload: Payload, file: Option<string>, origin: string,
                   newId: string, writeFails: bool) returns (status: Status)
      requires Valid() && newId !in books
      modifies this
      ensures Valid()
      ensures images == old(images)
      ensures file.None? ==> status == ServerError && books == old(books) && order == old(order)
      ensures file.Some? ==>
        var rec := NewRecord(payload, caller, ImageUrl(origin, file.value), newId);
        if !ValidRecord(rec) || writeFails then
          status == BadRequest && books == old(books) && order == old(order)
        else
          && status == Created
          && books == old(books)[newId := rec]
          && order == old(order) + [newId]
    {
      if file.None? {
        return ServerError;
      }
      var rec := NewRecord(payload, caller, ImageUrl(origin, file.value), newId);
      if !ValidRecord(rec) || writeFails {
        return BadRequest;
      }
      books := books[newId := rec];
      order := order + [newId];
      status := Created;
    }

    /**
     * updateBook: 404 for an unknown id and 403 for a caller who is not the
     * owner, both with nothing changed. Otherwise, when a file came, the old
     * image is unlinked first, and then the record is overwritten field by
     * field (200), or left as it was if `updateOne` rejects or fails (400),
     * the old image being gone either way.
     */
    method UpdateBook(caller: string, id: string, payload: Payload, file: Option<string>,
                      origin: string, lookupFails: bool, writeFails: bool) returns (status: Status)
      requires Valid()
      modifies this
      ensures Valid()
      ensures order == old(order)
      ensures lookupFails ==> status == BadRequest && books == old(books) && images == old(images)
      ensures !lookupFails && id !in old(books) ==>
        status == NotFound && books == old(books) && images == old(images)
      ensures !lookupFails && id in old(books) && NotOwner(Some(old(books)[id].owner), caller) ==>
        status == Forbidden && books == old(books) && images == old(images)
      ensures !lookupFails && id in old(books) && !NotOwner(Some(old(books)[id].owner), caller) ==>
        && images == (if file.Some? then old(images) - {ImageFileName(old(books)[id].imageUrl)}
                      else old(images))
        && var newUrl := if file.Some? then Some(ImageUrl(origin, file.value)) else None;
           var upd := Updated(old(books)[id], payload, newUrl, id);
           if upd.None? || writeFails then status == BadRequest && books == old(books)
           else status == Ok && books == old(books)[id := upd.value]
    {
      var newUrl := if file.Some? then Some(ImageUrl(origin, file.value)) else None;
      if lookupFails {
        return BadRequest;
      }
      if id !in books {
        return NotFound;
      }
      var book := books[id];
      if NotOwner(Some(book.owner), caller) {
        return Forbidden;
      }
      if file.Some? {
        images := images - {ImageFileName(book.imageUrl)};
      }
      var upd := Updated(book, payload, newUrl, id);
      if upd.None? || writeFails {
        return BadRequest;
      }
      UpdateFields(book, payload, newUrl, id);
      books := books[id := upd.value];
      status := Ok;
    }

    /**
     * deleteBook: 404 for an unknown id and 403 for a caller who is not the
     * owner, both with nothing changed. Otherwise the image is unlinked first
     * and then the record removed (200), or kept if the delete fails (400).
     */
    method DeleteBook(caller: string, id: string, lookupFails: bool, writeFails: bool)
      returns (status: Status)
      requires Valid()
      modifies this
      ensures Valid()
      ensures lookupFails ==>
        status == ServerError && books == old(books) && order == old(order) && images == old(images)
      ensures !lookupFails && id !in old(books) ==>
        status == NotFound && books == old(books) && order == old(order) && images == old(images)
      ensures !lookupFails && id in old(books) && NotOwner(Some(old(books)[id].owner), caller) ==>
        status == Forbidden && books == old(books) && order == old(order) && images == old(images)
      ensures !lookupFails && id in old(books) && !NotOwner(Some(old(books)[id].owner), caller) ==>
        && images == old(images) - {ImageFileName(old(books)[id].imageUrl)}
        && if writeFails then status == BadRequest && books == old(books) && order == old(order)
           else status == Ok && books == old(books) - {id} && order == Without(old(order), id)
    {
      if lookupFails {
        return ServerError;
      }
      if id !in books {
        return NotFound;
      }
      var book := books[id];
      if NotOwner(Some(book.owner), caller) {
        return Forbidden;
      }
      images := images - {ImageFileName(book.imageUrl)};
      if writeFails {
        return BadRequest;
      }
      books := books - {id};
      order := Without(order, id);
      status := Ok;
    }

    /**
     * addRating: 404 for an unknown id and 400 when the caller already rated
     * the book, both with nothing changed. Otherwise the entry is appended,
     * the average recomputed over all entries, and the book saved (200, the
     * saved book in the answer), unless validation or the write fails (400).
     * The score itself is never checked.
     */
    method AddRating(caller: string, id: string, value: int, lookupFails: bool, writeFails: bool)
      returns (status: Status, reply: Option<Book>)
      requires Valid()
      modifies this
      ensures Valid()
      ensures order == old(order) && images == old(images)
      ensures lookupFails ==> status == ServerError && reply == None && books == old(books)
      ensures !lookupFails && id !in old(books) ==>
        status == NotFound && reply == None && books == old(books)
      ensures !lookupFails && id in old(books) && FindRater(old(books)[id].ratings, caller) != -1 ==>
        status == BadRequest && reply == None && books == old(books)
      ensures !lookupFails && id in old(books) && FindRater(old(books)[id].ratings, caller) == -1 ==>
        var nb := Rated(old(books)[id], caller, value);
        if !ValidRecord(nb) || writeFails then
          status == BadRequest && reply == None && books == old(books)
        else
          && status == Ok && reply == Some(nb) && books == old(books)[id := nb]
          && nb.ratings == old(books)[id].ratings + [Rating(caller, value)]
          && AverageConsistent(nb)
          && (UniqueRaters(old(books)[id].ratings) ==> UniqueRaters(nb.ratings))
    {
      if lookupFails {
        return ServerError, None;
      }
      if id !in books {
        return NotFound, None;
      }
      var book := books[id];
      var existing := FindRater(book.ratings, caller);
      if existing != -1 {
        return BadRequest, None;
      }
      var ratings := book.ratings + [Rating(caller, value)];
      var total := Sum(ratings);
      var average := RoundedTenths(total, |ratings|);
      var saved := book.(ratings := ratings, averageRating := average);
      RatedSpec(book, caller, value);
      if !ValidRecord(saved) || writeFails {
        return BadRequest, None;
      }
      books := books[id := saved];
      return Ok, Some(saved);
    }
  }

  /** The payload the scenarios below submit. */
  const SamplePayload: Payload :=
    map["title" := Text("T"), "author" := Text("Au"), "description" := Text("D")]

  /** The record addBook makes of it for user "u1" under the id "A". */
  function SampleRecord(): (b: Book)
    ensures ValidRecord(b) && b.owner == "u1" && b.ratings == []
    ensures b == NewRecord(SamplePayload, "u1", ImageUrl("http://localhost:3000", "img1.png"), "A")
  {
    var b := NewRecord(SamplePayload, "u1", ImageUrl("http://localhost:3000", "img1.png"), "A");
    assert TextAt(SamplePayload, "title") == "T";
    assert TextAt(SamplePayload, "author") == "Au";
    assert TextAt(SamplePayload, "description") == "D";
    b
  }

  /** The sample record after a first rating of 5 by "u2": the average is 5.0. */
  lemma FirstRatingOfSample()
    ensures Rated(SampleRecord(), "u2", 5).averageRating == 50
    ensures ValidRecord(Rated(SampleRecord(), "u2", 5))
    ensures FindRater(SampleRecord().ratings, "u2") == -1
    ensures FindRater(Rated(SampleRecord(), "u2", 5).ratings, "u2") == 0
  {
  }

  /**
   * A book is created, rated once, and refused a second rating by the same
   * user, which leaves its average as it was.
   */
  method RatingScenario()
  {
    var c := new Catalogue({});
    var rec := SampleRecord();
    var s := c.AddBook("u1", SamplePayload, Some("img1.png"), "http://localhost:3000", "A", false);
    assert s == Created && c.books["A"] == rec;
    FirstRatingOfSample();
    var reply;
    s, reply := c.AddRating("u2", "A", 5, false, false);
    assert s == Ok && c.books["A"].averageRating == 50;
    s, reply := c.AddRating("u2", "A", 3, false, false);
    assert s.Code() == 400 && c.books["A"].averageRating == 50;
  }

  /**
   * A book is created, refused deletion by another user, deleted by its
   * owner, and then no longer found.
   */
  method DeleteScenario()
  {
    var c := new Catalogue({"img1.png"});
    var rec := SampleRecord();
    var s := c.AddBook("u1", SamplePayload, Some("img1.png"), "http://localhost:3000", "A", false);
    assert s == Created && c.books["A"] == rec;
    assert c.books["A"].owner == "u1";
    s := c.DeleteBook("u2", "A", false, false);
    assert s == Forbidden && "A" in c.books;
    s := c.DeleteBook("u1", "A", false, false);
    assert s == Ok && "A" !in c.books;
    var reply;
    s, reply := c.GetBookById("A", false);
    assert s == NotFound;
  }
}

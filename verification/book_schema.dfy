/** A minimal optional value, for lookups and JavaScript's `undefined`. */
module Wrappers {
  datatype Option<+T> = None | Some(value: T)
}

/**
 * The book record of backend/models/Book.js: the entities the catalogue
 * stores and the rules a `save` checks before writing one.
 */
module BookSchema {
  import opened Wrappers

  /** One entry of `ratings`: who rated the book and the score given. */
  datatype Rating = Rating(userId: string, rating: int)

  /**
   * A stored book. `id` is the document's `_id`; `owner` is the `userId` the
   * controller writes at creation and compares before an update or a delete
   * (the schema itself declares no such path). `averageRating` is held in
   * tenths: 45 stands for 4.5.
   */
  datatype Book = Book(
    id: string,
    owner: string,
    title: string,
    author: string,
    description: string,
    imageUrl: string,
    ratings: seq<Rating>,
    averageRating: int)

  /**
   * A field value of a parsed request payload or of a document handed to the
   * database: text, a number (in tenths, like the average it may overwrite),
   * or a list of rating entries.
   */
  datatype Value = Text(s: string) | Decimal(tenths: int) | Entries(rs: seq<Rating>)

  /** A parsed JSON object: field name to value. */
  type Payload = map<string, Value>

  /**
   * The paths `bookSchema` declares, with the `_id` every schema has. The
   * version key Mongoose adds is not part of this model.
   */
  const SchemaPaths: set<string> :=
    {"_id", "title", "author", "description", "imageUrl", "ratings", "averageRating"}

  /** A required string path rejects a missing and an empty string alike. */
  predicate RequiredText(s: string)
  {
    s != ""
  }

  /** A rating entry needs its `userId` string; its numeric `rating` is always present here. */
  predicate ValidRating(r: Rating)
  {
    RequiredText(r.userId)
  }

  /** What Mongoose's validation demands of a document before `save` writes it. */
  predicate ValidRecord(b: Book)
  {
    && RequiredText(b.title)
    && RequiredText(b.author)
    && RequiredText(b.description)
    && RequiredText(b.imageUrl)
    && forall i :: 0 <= i < |b.ratings| ==> ValidRating(b.ratings[i])
  }

  /**
   * A strict schema keeps only the paths it declares when a document is
   * built from an object; everything else, `userId` included, is dropped.
   */
  function StrictKeep(doc: Payload): (kept: Payload)
    ensures kept.Keys == doc.Keys * SchemaPaths
    ensures forall k :: k in kept ==> kept[k] == doc[k]
    ensures "userId" !in kept
  {
    map k | k in doc && k in SchemaPaths :: doc[k]
  }
}

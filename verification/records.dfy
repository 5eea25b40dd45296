/**
 * How backend/controllers/bookCtrl.js builds the documents it hands to the
 * database: the new record of addBook, the `updateOne` object of updateBook
 * and its field-wise overwrite, and the ownership test of updateBook and
 * deleteBook.
 */
module Records {
  import opened Wrappers
  import opened BookSchema

  /**
   * The text at `key`, or "" when the key is absent or holds no text: the
   * document then has no string for that path, which `required` rejects like
   * an empty one.
   */
  function TextAt(doc: Payload, key: string): string
  {
    if key in doc && doc[key].Text? then doc[key].s else ""
  }

  /** The text at `key`, or `current` when the key is absent. */
  function TextOr(doc: Payload, key: string, current: string): string
  {
    if key in doc && doc[key].Text? then doc[key].s else current
  }

  /** The fields addBook sets after spreading the payload. */
  const ServerSet: set<string> := {"userId", "imageUrl", "ratings", "averageRating"}

  /**
   * The document addBook builds its new record from: the payload without
   * `_id` and `_userId`, then the caller as `userId`, the uploaded file's
   * URL, no ratings and an average of 0, which override whatever the payload
   * held under those keys.
   */
  function CreationDoc(payload: Payload, caller: string, url: string): (doc: Payload)
    ensures doc.Keys == (payload.Keys - {"_id", "_userId"}) + ServerSet
    ensures doc["userId"] == Text(caller) && doc["imageUrl"] == Text(url)
    ensures doc["ratings"] == Entries([]) && doc["averageRating"] == Decimal(0)
    ensures forall k :: k in payload && k !in ServerSet && k != "_id" && k != "_userId" ==>
      doc[k] == payload[k]
  {
    (payload - {"_id", "_userId"})["userId" := Text(caller)]["imageUrl" := Text(url)]
      ["ratings" := Entries([])]["averageRating" := Decimal(0)]
  }

  /** The document supplies a non-empty text under `key`. */
  predicate SuppliesText(doc: Payload, key: string)
  {
    key in doc && doc[key].Text? && doc[key].s != ""
  }

  /**
   * The record the model constructs from `doc`, under the `_id` the database
   * generates: a required text field is filled exactly when the document
   * supplies a non-empty text for it, and a document without ratings gives
   * none. The schema gives `averageRating` no default, so a document without
   * it would leave the average unset and fail `save`; the model writes 0
   * there instead, a case CreationDoc never produces, since it always sets
   * the average.
   */
  function Construct(doc: Payload, id: string): (b: Book)
    ensures b.id == id
    ensures RequiredText(b.title) <==> SuppliesText(doc, "title")
    ensures RequiredText(b.author) <==> SuppliesText(doc, "author")
    ensures RequiredText(b.description) <==> SuppliesText(doc, "description")
    ensures RequiredText(b.imageUrl) <==> SuppliesText(doc, "imageUrl")
    ensures "ratings" !in doc ==> b.ratings == []
    ensures "averageRating" !in doc ==> b.averageRating == 0
  {
    Book(
      id,
      TextAt(doc, "userId"),
      TextAt(doc, "title"),
      TextAt(doc, "author"),
      TextAt(doc, "description"),
      TextAt(doc, "imageUrl"),
      if "ratings" in doc && doc["ratings"].Entries? then doc["ratings"].rs else [],
      if "averageRating" in doc && doc["averageRating"].Decimal? then doc["averageRating"].tenths else 0)
  }

  /**
   * The record addBook saves: whatever keys the payload holds, the owner is
   * the caller, the image is the uploaded file's URL, there are no ratings
   * and the average is 0; only title, author and description come from the
   * payload.
   */
  function NewRecord(payload: Payload, caller: string, url: string, id: string): (b: Book)
    ensures b.id == id && b.owner == caller && b.imageUrl == url
    ensures b.ratings == [] && b.averageRating == 0
    ensures b.title == TextAt(payload, "title")
    ensures b.author == TextAt(payload, "author")
    ensures b.description == TextAt(payload, "description")
  {
    Construct(CreationDoc(payload, caller, url), id)
  }

  /**
   * The new record passes validation exactly when the payload supplies a
   * non-empty title, author and description (the URL is never empty).
   */
  lemma InitialRecordValid(payload: Payload, caller: string, url: string, id: string)
    requires url != ""
    ensures ValidRecord(NewRecord(payload, caller, url, id)) <==>
      TextAt(payload, "title") != "" && TextAt(payload, "author") != "" &&
      TextAt(payload, "description") != ""
  {
  }

  /**
   * The document the update is made with: the payload (the parsed `book` field
   * when a file came with the request, the raw body otherwise) with the new
   * image's URL when there is one, without `_userId`, and with `_id` forced
   * to the id of the path. Every other key passes through, `userId`,
   * `ratings` and `averageRating` included (whether the database then keeps
   * `userId` depends on the schema: see StrictSchemaForbidsEveryone).
   */
  function UpdateDoc(payload: Payload, newUrl: Option<string>, id: string): (doc: Payload)
    ensures "_userId" !in doc
    ensures "_id" in doc && doc["_id"] == Text(id)
    ensures newUrl.Some? ==> "imageUrl" in doc && doc["imageUrl"] == Text(newUrl.value)
    ensures forall k :: k in payload && k != "_userId" && k != "_id" && (newUrl.None? || k != "imageUrl") ==>
      k in doc && doc[k] == payload[k]
    ensures doc.Keys == (payload.Keys - {"_userId"}) + {"_id"} + (if newUrl.Some? then {"imageUrl"} else {})
  {
    var withImage := if newUrl.Some? then payload["imageUrl" := Text(newUrl.value)] else payload;
    (withImage - {"_userId"})["_id" := Text(id)]
  }

  /** The paths of the record that hold text. */
  const TextPaths: set<string> := {"_id", "userId", "title", "author", "description", "imageUrl"}

  /** The value can be cast to the type of the path `k` (a path the schema lacks takes anything). */
  predicate FitsPath(k: string, v: Value)
  {
    && (k in TextPaths ==> v.Text?)
    && (k == "ratings" ==> v.Entries?)
    && (k == "averageRating" ==> v.Decimal?)
  }

  /** Every path the document sets can be cast; otherwise `updateOne` rejects the update. */
  predicate Castable(doc: Payload)
  {
    forall k :: k in doc ==> FitsPath(k, doc[k])
  }

  /** Field-wise overwrite: every path the document names overwrites that field; the others stay. */
  function SetFields(b: Book, doc: Payload): (nb: Book)
    ensures "_id" !in doc ==> nb.id == b.id
    ensures "userId" !in doc ==> nb.owner == b.owner
    ensures "title" !in doc ==> nb.title == b.title
    ensures "author" !in doc ==> nb.author == b.author
    ensures "description" !in doc ==> nb.description == b.description
    ensures "imageUrl" !in doc ==> nb.imageUrl == b.imageUrl
    ensures "ratings" !in doc ==> nb.ratings == b.ratings
    ensures "averageRating" !in doc ==> nb.averageRating == b.averageRating
    ensures doc.Keys !! (TextPaths + {"ratings", "averageRating"}) ==> nb == b
  {
    Book(
      TextOr(doc, "_id", b.id),
      TextOr(doc, "userId", b.owner),
      TextOr(doc, "title", b.title),
      TextOr(doc, "author", b.author),
      TextOr(doc, "description", b.description),
      TextOr(doc, "imageUrl", b.imageUrl),
      if "ratings" in doc && doc["ratings"].Entries? then doc["ratings"].rs else b.ratings,
      if "averageRating" in doc && doc["averageRating"].Decimal? then doc["averageRating"].tenths
      else b.averageRating)
  }

  /** The record `updateOne` leaves, or None when it rejects the update. */
  function Updated(b: Book, payload: Payload, newUrl: Option<string>, id: string): (r: Option<Book>)
    ensures r.Some? ==> r.value.id == id
    ensures r.Some? && newUrl.Some? ==> r.value.imageUrl == newUrl.value
    ensures payload == map[] && newUrl.None? ==> r == Some(b.(id := id))
  {
    var doc := UpdateDoc(payload, newUrl, id);
    if Castable(doc) then Some(SetFields(b, doc)) else None
  }

  /** The payload keys an update takes over unchanged. */
  predicate PassesThrough(k: string, newUrl: Option<string>)
  {
    k != "_userId" && k != "_id" && (newUrl.None? || k != "imageUrl")
  }

  /** A payload `_userId` or `_id` has no effect on an update. */
  lemma UpdateIgnoresIds(b: Book, payload: Payload, newUrl: Option<string>, id: string)
    ensures Updated(b, payload, newUrl, id) == Updated(b, payload - {"_userId"}, newUrl, id)
    ensures Updated(b, payload, newUrl, id) == Updated(b, payload - {"_id"}, newUrl, id)
  {
    var doc := UpdateDoc(payload, newUrl, id);
    assert UpdateDoc(payload - {"_userId"}, newUrl, id) == doc;
    assert UpdateDoc(payload - {"_id"}, newUrl, id) == doc;
  }

  /** An update is rejected exactly when a key the payload passes on holds a value of the wrong kind. */
  lemma UpdateRejects(b: Book, payload: Payload, newUrl: Option<string>, id: string)
    ensures Updated(b, payload, newUrl, id).None? <==>
      exists k :: k in payload && PassesThrough(k, newUrl) && !FitsPath(k, payload[k])
  {
  }

  /**
   * What an accepted update does to a record: the id stays the path's id;
   * the image URL becomes the new file's when there is one, and otherwise
   * the payload's `imageUrl` if it has one; every other field, the owner
   * included, takes the payload's value when the payload names it.
   */
  lemma UpdateFields(b: Book, payload: Payload, newUrl: Option<string>, id: string)
    requires Updated(b, payload, newUrl, id).Some?
    ensures var nb := Updated(b, payload, newUrl, id).value;
      && nb.id == id
      && nb.imageUrl == (if newUrl.Some? then newUrl.value else TextOr(payload, "imageUrl", b.imageUrl))
      && nb.owner == TextOr(payload, "userId", b.owner)
      && nb.title == TextOr(payload, "title", b.title)
      && nb.author == TextOr(payload, "author", b.author)
      && nb.description == TextOr(payload, "description", b.description)
      && nb.ratings == (if "ratings" in payload then payload["ratings"].rs else b.ratings)
      && nb.averageRating ==
        (if "averageRating" in payload then payload["averageRating"].tenths else b.averageRating)
  {
  }

  /** Repeating an accepted update leaves the record as the first one left it. */
  lemma UpdateIdempotent(b: Book, payload: Payload, newUrl: Option<string>, id: string)
    requires Updated(b, payload, newUrl, id).Some?
    ensures Updated(Updated(b, payload, newUrl, id).value, payload, newUrl, id) ==
      Updated(b, payload, newUrl, id)
  {
  }

  /** The ownership test fails: the stored owner, possibly missing, differs from the caller. */
  predicate NotOwner(stored: Option<string>, caller: string)
  {
    stored != Some(caller)
  }

  /** The owner a document carries under `userId`, if any. */
  function StoredOwner(doc: Payload): Option<string>
  {
    if "userId" in doc && doc["userId"].Text? then Some(doc["userId"].s) else None
  }

  /**
   * As written: the schema declares no `userId`, so a strict schema drops the
   * owner addBook sets, and the test of updateBook and deleteBook then
   * forbids every caller, the creator included.
   */
  lemma StrictSchemaForbidsEveryone(payload: Payload, caller: string, url: string, anyone: string)
    ensures StoredOwner(StrictKeep(CreationDoc(payload, caller, url))) == None
    ensures NotOwner(StoredOwner(StrictKeep(CreationDoc(payload, caller, url))), anyone)
  {
  }

  /**
   * As intended, with the owner kept in the record: the creator, and nobody
   * else, passes the ownership test.
   */
  lemma CreatorPassesGate(payload: Payload, caller: string, url: string, id: string, other: string)
    ensures !NotOwner(StoredOwner(CreationDoc(payload, caller, url)), caller)
    ensures !NotOwner(Some(NewRecord(payload, caller, url, id).owner), caller)
    ensures other != caller ==> NotOwner(Some(NewRecord(payload, caller, url, id).owner), other)
  {
  }
}

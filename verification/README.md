# Book catalogue controller — a Dafny model

This project models the book catalogue of a small Express/Mongoose back end: the
seven request handlers of `backend/controllers/bookCtrl.js` and the record
shape that `backend/models/Book.js` declares.

- **List and look up.** Every handler answers with the HTTP status it sends. A
  book can be listed, fetched by id, or ranked (the three best averages).
- **Create.** A book is created from a JSON payload and an uploaded image. Its
  owner is the caller, its image URL is built from the request origin and the
  file name, it has no ratings, and its average is 0.
- **Update and delete.** Only the owner may update or delete a book. deleteBook,
  and updateBook when a new file came, first unlink the stored image, whose file
  name is recovered by splitting the URL at `/images/`.
- **Rate.** A user may rate a book once. The entry is appended and the average
  is recomputed over all entries, rounded to one decimal.

Modules:

- `Wrappers` holds `Option`.
- `BookSchema` (`book_schema.dfy`) holds the record, payload values, validation
  of required paths and the strict-schema filter.
- `ImagePath` (`image_path.dfy`) builds an image URL and reads the file name
  back; it proves the round trip and the case where it fails.
- `Ratings` (`ratings.dfy`) holds the sum, the duplicate scan, the half-up
  rounding to tenths, and the book after one more rating.
- `Ranking` (`ranking.dfy`) holds the descending sort and the limit of three.
- `Records` (`records.dfy`) holds the document addBook saves, the document an
  update is made with, the field-wise overwrite, and the ownership test.
- `Catalogue` (`catalogue.dfy`) holds the class `Catalogue`, whose fields are
  the stored books, the order the collection lists them in, and the image
  directory. Each handler is a method on it that states its status and the new
  state.

The model makes these choices:

- **Average in tenths.** The stored average is kept as an integer number of
  tenths: 45 stands for 4.5. Ten times the mean, rounded half up, is computed
  exactly as `(20 * total + n) / (2 * n)`.
- **Database failures are parameters.** A failed lookup is `lookupFails` and a
  failed write is `writeFails`. Each handler answers them with the status the
  code uses: 400 for the list and get handlers, for updateBook and for every
  write; 500 for a failed lookup in deleteBook and addRating.
- **Ids are inputs.** The id a new document receives is the parameter `newId`.
  The request origin (protocol and host) is the text parameter `origin`.

The model follows the code where its behaviour looks unintended:

- **updateBook and deleteBook unlink before they write.** The image is unlinked
  before the write is attempted. A failed write therefore leaves the record
  pointing at a file that is gone.
- **Scores are not checked.** addRating accepts any integer score, and so does
  the schema.
- **updateBook passes most payload keys through.** `ratings`, `averageRating`
  and, without a file, `imageUrl` reach the stored record, so the average can
  be overwritten (`Records.UpdateFields`). The update document carries the
  payload's `userId` as well. With the owner kept as a field, as the controller
  assumes and this model does, the owner can then be handed over. Under the
  schema as written, the strict filter drops `userId` from the update just as
  it does at creation (see Findings).
- **updateBook does not validate.** It does not run validation: an update may
  empty a required field. It fails only when a value cannot be cast to its
  path's type.
- **A file-less update keeps the old image.** Without a file, the old image is
  not unlinked.
- **addBook without a file answers 500.** The handler reads the file name of a
  missing upload, which throws, and the framework answers 500.

## Model

| member | source | states |
|---|---|---|
| `BookSchema.StrictKeep` | backend/models/Book.js:3-15 | a strict schema keeps exactly the declared paths of a document (and `_id`), with their values, so `userId` never survives |
| `BookSchema.ValidRecord` | backend/models/Book.js:4-14 | the required rules: title, author, description and image URL are non-empty, and every rating entry has a user id; what it admits for a new record is stated by `Records.InitialRecordValid`, and for a rated one by `Ratings.RatedSpec` |
| `ImagePath.IndexFrom` | backend/controllers/bookCtrl.js:77 | the position found is an occurrence of the separator with none before it, and -1 means there is no occurrence at all |
| `ImagePath.SecondPiece` | backend/controllers/bookCtrl.js:104 | the second piece of a split is missing exactly when the separator does not occur in the URL; otherwise it is the longest start of the text after the first separator in which no separator begins, so it ends at the next separator or at the end of the URL |
| `ImagePath.ImageFileName` | backend/controllers/bookCtrl.js:104-106 | the name unlinked is the text "undefined" when the URL holds no `/images/`, and never itself contains `/images/`; `ImagePath.FileNameRoundTrip` states that it recovers the stored name |
| `ImagePath.FileNameRoundTrip` | backend/controllers/bookCtrl.js:104-106 | the file name read back from the URL built at creation is the stored file name, whenever the separator first occurs right after the origin and not in the name |
| `ImagePath.OriginWithoutSeparator` | backend/controllers/bookCtrl.js:45 | for a protocol and a host without a slash, the separator cannot occur inside the origin unless the host is `images` |
| `ImagePath.ImagesHostBreaksRoundTrip` | backend/controllers/bookCtrl.js:77 | when the host is `images`, the name read back is `images/` plus the file name, so the unlink misses the file |
| `Ratings.FindRater` | backend/controllers/bookCtrl.js:123-128 | the duplicate scan returns -1 exactly when no entry belongs to the caller; otherwise it returns the first entry that does |
| `Ratings.Sum` | backend/controllers/bookCtrl.js:136 | the total of all scores, from the first entry to the last; its properties are stated by `Ratings.SumAppend` and `Ratings.SumWithin` |
| `Ratings.SumAppend` | backend/controllers/bookCtrl.js:136 | the total of two runs of entries is the sum of their totals |
| `Ratings.SumWithin` | backend/controllers/bookCtrl.js:136 | with every score in [lo, hi], the total of n entries lies in [n·lo, n·hi] |
| `Ratings.RoundedTenths` | backend/controllers/bookCtrl.js:137 | the stored value is the number of tenths nearest the mean, a half rounded up: 2n·t ≤ 20·total + n < 2n·(t+1) |
| `Ratings.RoundedWithin` | backend/controllers/bookCtrl.js:137 | rounding keeps a mean that lies in [lo, hi] within [10·lo, 10·hi] tenths |
| `Ratings.AverageWithin` | backend/controllers/bookCtrl.js:134-137 | if every score lies in [lo, hi], the recomputed average lies in the same range |
| `Ratings.Rated` | backend/controllers/bookCtrl.js:130-137 | the book after a rating has the new entry appended, every other field but the average unchanged, and an average consistent with all its entries |
| `Ratings.RatedSpec` | backend/controllers/bookCtrl.js:130-137 | appending a rating from a new rater keeps the old entries in front, changes nothing but the ratings and the average, adds the score to the total, makes the average the rounded mean of all entries, keeps one entry per user, and keeps a valid record valid exactly when the caller's id is non-empty |
| `Ratings.RateAllAverages` | backend/controllers/bookCtrl.js:134-137 | starting from a new book and applying one rating at a time yields exactly those entries, with the average always equal to a recomputation from scratch |
| `Ratings.WorkedAverages` | backend/controllers/bookCtrl.js:137 | scores 4 and 5 average 4.5; scores 3, 3 and 4 average 3.3 |
| `Ranking.InsertSorted` | backend/controllers/bookCtrl.js:26 | inserting a book into a list sorted by descending average keeps it sorted |
| `Ranking.InsertMembers` | backend/controllers/bookCtrl.js:26 | inserting a book adds exactly that book to the list's multiset of books |
| `Ranking.SortByAverage` | backend/controllers/bookCtrl.js:26 | the sorted list is a permutation of the collection, in descending order of average |
| `Ranking.SortedPrefix` | backend/controllers/bookCtrl.js:27 | the first k books of the sorted list are sorted, and every one of them is a book of the collection |
| `Ranking.PrefixBeatsRest` | backend/controllers/bookCtrl.js:26-27 | no book left out of the first k has a strictly higher average than a book kept |
| `Ranking.BestRated` | backend/controllers/bookCtrl.js:25-27 | returns min(3, n) books, highest first, drawn from the collection without repeats, and no book left out outranks one returned |
| `Records.CreationDoc` | backend/controllers/bookCtrl.js:38-48 | the document for a new book drops the payload's `_id` and `_userId`; it forces owner, image URL, empty ratings and average 0, and passes every other key through |
| `Records.Construct` | backend/controllers/bookCtrl.js:42 | building a record from a document: a required text field is filled exactly when the document supplies non-empty text for it, and a document without ratings gives none; a document without an average gets 0, a stand-in for the unset value the schema would refuse, which the creation document never leaves unset |
| `Records.NewRecord` | backend/controllers/bookCtrl.js:42-48 | whatever the payload holds, the new record has the given id and the caller as owner, the uploaded file's URL, no ratings and an average of 0; only title, author and description come from the payload |
| `Records.InitialRecordValid` | backend/controllers/bookCtrl.js:50-53 | the save of a new book passes validation exactly when the payload gives a non-empty title, author and description |
| `Records.UpdateDoc` | backend/controllers/bookCtrl.js:58-65 | the update document has no `_userId` and has the path's id as `_id`; it holds the new image URL when a file came and takes every other key from the payload; its keys are exactly the payload's without `_userId`, plus `_id`, plus `imageUrl` when a file came |
| `Records.SetFields` | backend/controllers/bookCtrl.js:84 | the field-wise overwrite leaves every field the document does not name as it was, and a document naming no field of the record changes nothing |
| `Records.Updated` | backend/controllers/bookCtrl.js:79 | an accepted update keeps the path's id and takes the new file's URL when there is one; an empty body without a file changes nothing but the id; `Records.UpdateRejects` and `Records.UpdateFields` state the rest |
| `Records.UpdateIdempotent` | backend/controllers/bookCtrl.js:84-86 | repeating an accepted update leaves the record as the first one left it |
| `Records.UpdateIgnoresIds` | backend/controllers/bookCtrl.js:79 | a `_userId` or `_id` in the payload has no effect on the updated record |
| `Records.UpdateRejects` | backend/controllers/bookCtrl.js:79-81 | an update is rejected exactly when a key the payload passes on holds a value that cannot be cast to its path |
| `Records.UpdateFields` | backend/controllers/bookCtrl.js:84-86 | an accepted update keeps the path's id; the image becomes the new file's URL, or else the payload's; every other field, owner included, takes the payload's value when the payload names it and keeps its old value otherwise |
| `Records.StrictSchemaForbidsEveryone` | backend/controllers/bookCtrl.js:72 | as written: with the schema's strict filter, the stored document has no owner, so every caller fails the ownership test |
| `Records.CreatorPassesGate` | backend/controllers/bookCtrl.js:100-102 | as intended: with the owner kept, the creator passes the ownership test and every other caller fails it |
| `Catalogue.Catalogue.GetAllBooks` | backend/controllers/bookCtrl.js:5-9 | answers 200 with every stored book exactly once, in the collection's order, or 400 when the lookup fails |
| `Catalogue.Catalogue.GetBookById` | backend/controllers/bookCtrl.js:12-21 | answers 200 with the book stored under the id, 404 when there is none, or 400 when the lookup fails |
| `Catalogue.Catalogue.GetBestRatingBooks` | backend/controllers/bookCtrl.js:24-34 | answers 200 with min(3, n) stored books, highest average first, drawn from the listing without repeats (a sub-multiset of it), none outranked by a book left out; or 400 when the lookup fails |
| `Catalogue.Catalogue.AddBook` | backend/controllers/bookCtrl.js:37-54 | answers 500 without a file; 400 with nothing stored when validation or the write fails; otherwise 201, with the new record stored under the new id and listed last; images are untouched and the store stays consistent |
| `Catalogue.Catalogue.UpdateBook` | backend/controllers/bookCtrl.js:57-90 | answers 400 on a failed lookup, 404 for an unknown id and 403 for a non-owner, each with nothing changed; otherwise it unlinks the old image when a file came, then answers 200 with the updated record stored, or 400 with the record unchanged |
| `Catalogue.Catalogue.DeleteBook` | backend/controllers/bookCtrl.js:93-113 | answers 500, 404 or 403 with nothing changed; otherwise it unlinks the image, then answers 200 with the book removed from the store and the listing, or 400 with the book kept |
| `Catalogue.Catalogue.AddRating` | backend/controllers/bookCtrl.js:116-145 | answers 500, 404, or 400 for a repeat rater, each with nothing changed; otherwise the appended, re-averaged book is saved and returned (200), or 400 when validation or the write fails; the average stays consistent and raters stay unique |
| `Catalogue.FirstRatingOfSample` | backend/controllers/bookCtrl.js:134-137 | a new book rated 5 by a first user has the average 5.0, and that user is then found by the duplicate scan |

## Left out

- Routing is not part of this model. This covers `backend/routes/books.js`, the authentication middleware that sets the caller id, and the upload middleware that stores the file. In that routes file, `/:id` is registered before `/bestrating`, which shadows it.
- JSON parsing of the request body is not modelled; payloads arrive already parsed as maps. The 500 answer to a payload that fails to parse is left out with it.
- Mongoose's conversion of numbers to strings and strings to numbers is not modelled. On update, a payload value either has its path's kind or the update is rejected. On creation, a non-text title, author or description counts as missing, so addBook answers 400 where Mongoose would cast a number to a string and answer 201. A missing score in addRating (the caller sends no `rating`) is not modelled either: the score is always an integer.
- Floating point is not modelled. Averages are exact tenths. The double-precision rounding of a mean times ten can differ from the exact value in rare cases.
- Concurrency is not modelled: neither interleaved requests nor the unlink callback. That callback runs after the handler returns, and updateBook and deleteBook issue their database write and their answer from inside it. The model runs the unlink, the write and the answer in one step.
- Errors from the file system are ignored by the code, and so by the model. Removing a name the directory does not hold changes nothing.
- The generated ObjectId is a parameter. Ids are plain strings.
- Ties in the database sort are modelled as stable, in the collection's order. MongoDB does not promise an order among equal averages; no contract depends on it.
- The origin is opaque text. The round trip of file names is proved under a stated condition on the origin, and `ImagePath.OriginWithoutSeparator` shows when a protocol and host meet it.
- The schema as written has no `userId` path, so the strict filter drops it from updates as well as from creation. The model keeps the owner as a field, as the controller assumes. The consequences of the schema as written are stated only for creation, by `Records.StrictSchemaForbidsEveryone`.
- Records.Construct: a document without `averageRating` gets 0 rather than an unset average that `save` refuses; `Records.CreationDoc` always sets the average, so no handler reaches this case.
- The version key Mongoose adds to every document is not modelled.
- A file uploaded to an addBook call that then fails validation stays in the image directory. The model's `images` set only tracks removals.

## Findings

| source | as written | input that shows it | evidently intended | confidence | as-written member | corrected member |
|---|---|---|---|---|---|---|
| backend/models/Book.js:3-15 | the schema declares no `userId` path, so the strict schema drops the owner addBook sets; the ownership tests of updateBook and deleteBook (bookCtrl.js:72, :100) compare a missing owner with the caller and answer 403 for everyone | user "u1" creates a book, then "u1" sends a PUT or DELETE for it | the schema keeps `userId`, so the creator, and only the creator, may update or delete the book | high; not executed | `Records.StrictSchemaForbidsEveryone` | `Records.CreatorPassesGate` |

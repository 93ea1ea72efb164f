# pokemon-nest catalogue core, modelled in Dafny

This project models the two services of a small NestJS catalogue of Pokémon:

- PokemonService: create, list, look up, update and remove entries `{id, no, name}`.
- SeedService: empty the catalogue, then refill it from the name/URL pairs of an external API.

The Mongoose model both services share becomes an in-memory collection. It is the class
`Store.Collection`, a table from document id to `{no, name}`. The Pokemon schema is not part of
this model. The model assumes it declares a unique index on `no`, so no two documents share a
catalogue number. A write that would break that rule fails with MongoDB's duplicate-key
error, code 11000, and carries the clashing `no` as `keyValue.no`.

Files and modules:

- `wrappers.dfy` (`Wrappers`): `Option`, `Result` and `Outcome`.
- `text.dfy` (`Text`): lowercasing, decimal digit strings, and splitting on `/` with its inverse, joining.
- `store.dfy` (`Store`): the documents and the store errors. It also holds the writes as pure
  functions of the table and `Listing`, the table in ascending order of `no`.
  The class `Collection` has one method per Mongoose call the services make.
- `pokemon_service.dfy` (`Catalogue`): the HTTP errors, `HandleExceptions` and the
  three-step lookup by term. It also holds the class `PokemonService`.
- `seed_service.dfy` (`Seeding`): deriving `no` from a URL, the `results` mapping and
  the class `SeedService`.
- `scenarios.dfy` (`Scenarios`): callers that use only the services' contracts to replay the
  catalogue's promised behaviours. Examples: lowercase "Pikachu" is found and mixed case is
  not; a duplicate number is rejected; a page of two from offset one over numbers 1–4 gives
  2 and 3; seeding "bulbasaur" from `.../pokemon/1/` leaves exactly `{no: 1, name: "bulbasaur"}`.

Values the running program gets from outside are parameters of the model:

- Ids: the id the driver assigns to a new document (`assignedId`, or `idFor(i)` for the i-th
  document of a bulk insert).
- fault: a store error that does not depend on the table's contents, such as a lost
  connection.
- fetched: the `results` list of the HTTP fetch, or `None` when the fetch fails.
- defaultLimit: a constructor argument.

Two points where the code is narrower than a first reading suggests:

- Stored names are not always lowercase. `executeSeed` inserts the fetched names unchanged,
  so only `create` and `update` guarantee lowercase names.
- A duplicate does not always name a `no`. The code reads `error.keyValue.no`, which is
  absent when the clash is on `_id`, so `BadRequestDuplicate` carries an `Option<int>`.

A term or id that is a valid ObjectId is matched against `_id` after Mongoose's cast, which
reads the hex digits in either case and stores them lowercase (`Catalogue.IdKey`).

## Model

| member | source | states |
|---|---|---|
| `Text.ToLower` | src/pokemon/pokemon.service.ts:26 | same length; every upper-case letter becomes its lower-case partner, every other character is kept; the result has no upper-case letter |
| `Text.ToLowerFixesLower` | src/pokemon/pokemon.service.ts:26 | lowercasing leaves a string unchanged exactly when it has no upper-case letter |
| `Text.ToLowerIdempotent` | src/pokemon/pokemon.service.ts:71 | lowercasing a lowercased name again changes nothing |
| `Text.ParseNat` | src/pokemon/pokemon.service.ts:49-50 | the value of a decimal digit string; it is 0 exactly when every digit is `0` |
| `Text.NatToDigits` | src/pokemon/pokemon.service.ts:49-50 | the decimal form of a number is a non-empty digit string without a leading zero |
| `Text.ParseNatToDigits` | src/pokemon/pokemon.service.ts:49-50 | reading the decimal form of n as a number gives n back |
| `Text.DigitsToParseNat` | src/seed/seed.service.ts:24 | a digit string without leading zeros is the decimal form of the number it is read as |
| `Text.Split` | src/seed/seed.service.ts:22 | splitting on `/` gives at least one piece and no piece contains `/` |
| `Text.JoinSplit` | src/seed/seed.service.ts:22 | joining the pieces with `/` gives back the URL |
| `Text.SplitJoin` | src/seed/seed.service.ts:22 | splitting a join of `/`-free pieces gives back the pieces |
| `Text.SplitWithoutSeparator` | src/seed/seed.service.ts:22 | a string without `/` splits into itself alone |
| `Text.SplitAppendPiece` | src/seed/seed.service.ts:22 | appending `/` and a `/`-free piece to a string appends exactly that piece to its split |
| `Store.Insert` | src/pokemon/pokemon.service.ts:29 | an insert succeeds exactly when neither the id nor the `no` is taken, and then adds just that document; otherwise it is a code-11000 error naming the `no` when the id was free; `no` stays unique |
| `Store.InsertBatch` | src/seed/seed.service.ts:28 | inserting the batch one document at a time: any error is a duplicate key; a success keeps every earlier document, adds exactly one document per batch element, and keeps `no` unique |
| `Store.InsertBatchSucceeds` | src/seed/seed.service.ts:28 | a bulk insert succeeds exactly when the batch's ids and numbers clash neither with each other nor with the table; any failure is a duplicate-key error |
| `Store.InsertBatchContents` | src/seed/seed.service.ts:28 | after a successful bulk insert the table holds the earlier documents plus each batch document under its id, nothing else, and `no` stays unique |
| `Store.UpdateDoc` | src/pokemon/pokemon.service.ts:74 | an update fails exactly when the new `no` belongs to another document, with code 11000 naming that `no`; otherwise present patch fields replace the document's, and `no` stays unique |
| `Store.ListingContents` | src/pokemon/pokemon.service.ts:37-43 | the sorted listing holds every document of the table and nothing else, one entry per document |
| `Store.ListingAscending` | src/pokemon/pokemon.service.ts:40-42 | under the unique index the listing is strictly ascending in `no` |
| `Store.ListingIsTheAscendingOrder` | src/pokemon/pokemon.service.ts:40-42 | any strictly ascending list of exactly the table's documents is the listing, so `sort({no: 1})` fixes the order |
| `Store.Page` | src/pokemon/pokemon.service.ts:38-39 | the window skips the first `skip` entries and keeps at most `limit` (all when the limit is 0); entry i of the window is entry `skip + i` of the listing |
| `Store.Collection.Create` | src/pokemon/pokemon.service.ts:29 | a fault is raised as is; otherwise the insert's error is raised, or the document is stored under the assigned id and returned with it; a failure changes nothing |
| `Store.Collection.FindOneByNo` | src/pokemon/pokemon.service.ts:50 | finds an entry exactly when some document has that `no`, and the entry found has it |
| `Store.Collection.FindById` | src/pokemon/pokemon.service.ts:54 | finds an entry exactly when the id is in the table, and it is the document under that id |
| `Store.Collection.FindOneByName` | src/pokemon/pokemon.service.ts:58 | finds an entry exactly when some document's name equals the term character for character, and the entry found has that name |
| `Store.Collection.Find` | src/pokemon/pokemon.service.ts:37-43 | returns the window of the listing in ascending `no` |
| `Store.Collection.UpdateOne` | src/pokemon/pokemon.service.ts:74 | a fault or a duplicate `no` fails without change; otherwise the table becomes the updated table |
| `Store.Collection.DeleteOne` | src/pokemon/pokemon.service.ts:83 | removes exactly the document with that id; reports 1 if there was one, 0 if not |
| `Store.Collection.DeleteMany` | src/seed/seed.service.ts:19 | the table is empty |
| `Store.Collection.InsertMany` | src/seed/seed.service.ts:28 | a fault, a document whose `no` is not a number, or a duplicate fails with nothing inserted; otherwise every document goes in under its id |
| `Catalogue.HandleExceptions` | src/pokemon/pokemon.service.ts:92-97 | code 11000 becomes a 400 bad request carrying `keyValue.no`; every other store error becomes a 500; nothing else can come out |
| `Catalogue.IsNumeric` | src/pokemon/pokemon.service.ts:49 | a term counts as numeric when it is a non-empty decimal digit string |
| `Catalogue.NumericTermIsDecimal` | src/pokemon/pokemon.service.ts:49-50 | a numeric term without leading zeros (the term "0" included) is the decimal form of the number it is read as, so the number lookup looks for the entry whose `no` prints as the term |
| `Catalogue.IsValidObjectId` | src/pokemon/pokemon.service.ts:53 | a term is a valid ObjectId when it is 24 hex digits of either case |
| `Catalogue.IdKey` | src/pokemon/pokemon.service.ts:53-54 | the `_id` a valid ObjectId term matches is `ToLower` of the term, itself a valid lowercase ObjectId; an already lowercase term and a term that is not an ObjectId are used as they are |
| `Catalogue.Resolves` | src/pokemon/pokemon.service.ts:49-59 | an entry findOne may return: an entry of the table matching the number if the number lookup hits, else the id if the id lookup hits, else the exact name; only a resolvable term has one |
| `Catalogue.IdLookupIgnoresCase` | src/pokemon/pokemon.service.ts:53-54 | when the number lookup misses, any spelling of a stored id, in either case, finds the entry under that id and no other |
| `Catalogue.ResolvesUniquely` | src/pokemon/pokemon.service.ts:49-55 | when the number lookup or the id lookup hits, the entry findOne returns is the only possible one |
| `Catalogue.NumberFindsEntry` | src/pokemon/pokemon.service.ts:49-51 | looking up an entry's number written in decimal finds that entry and no other |
| `Catalogue.NameLookupIsCaseSensitive` | src/pokemon/pokemon.service.ts:57-59 | the term is not lowercased, so a term with an upper-case letter never matches a lowercase stored name |
| `Catalogue.LowercaseName` | src/pokemon/pokemon.service.ts:26 | the create body keeps its `no` and has its name lowercased |
| `Catalogue.NormalizePatch` | src/pokemon/pokemon.service.ts:70-71 | the patch keeps its `no`, keeps whether it has a name, and a name it has is lowercased |
| `Catalogue.Overlay` | src/pokemon/pokemon.service.ts:75 | the returned view keeps the entry's id; each field the patch carries wins, the rest come from the entry |
| `Catalogue.OverlayIsStored` | src/pokemon/pokemon.service.ts:74-75 | the view update returns is exactly the document the store holds after the write |
| `Catalogue.PokemonService.constructor` | src/pokemon/pokemon.service.ts:17-23 | the service uses the given collection and the configured default page size |
| `Catalogue.PokemonService.Create` | src/pokemon/pokemon.service.ts:25-34 | on success the entry is stored and returned with its name lowercased; with no fault it succeeds exactly when id and `no` are free; a taken `no` gives a bad request naming it; every failure is a bad request or a 500 and changes nothing |
| `Catalogue.PokemonService.FindAll` | src/pokemon/pokemon.service.ts:36-45 | the page is the listing window for `limit` (default `defaultLimit`) and `offset` (default 0): strictly ascending in `no`, entries of the table, at most `limit` long |
| `Catalogue.PokemonService.FindOne` | src/pokemon/pokemon.service.ts:47-66 | succeeds exactly when one of the three lookups can hit; the entry matches the number if the number lookup hits, else the id if the id lookup hits, else the exact name; otherwise a NotFound naming the term |
| `Catalogue.PokemonService.Update` | src/pokemon/pokemon.service.ts:68-79 | an unresolvable term is a NotFound with no change, and vice versa; on success the entry findOne resolves is overwritten by the normalised patch, and the old entry overlaid with the patch is returned; for a resolvable term a fault becomes `handleExceptions` of it, and with no fault the only failure is a bad request naming the patch's `no`, which needs that `no` to be held by an entry other than the one the term resolves to (a patch repeating the entry's own `no` succeeds); a free `no` always succeeds, and a success keeps `no` unique; every failure changes nothing |
| `Catalogue.PokemonService.Remove` | src/pokemon/pokemon.service.ts:81-90 | fails exactly when no entry has the id (after the ObjectId cast), with a bad request naming the id as given and no change; otherwise removes exactly that entry |
| `Seeding.NoFromUrl` | src/seed/seed.service.ts:22-24 | a number comes out exactly when the URL has at least two `/`-pieces and the second-to-last is a digit string; it is never negative |
| `Seeding.UrlYieldsDigits` | src/seed/seed.service.ts:22-24 | a URL ending in `/` + digits + `/` yields the value of the digits, because the trailing slash leaves an empty last piece |
| `Seeding.UrlRoundTrip` | src/seed/seed.service.ts:22-24 | the URL of number n written in decimal yields n |
| `Seeding.DeriveEntries` | src/seed/seed.service.ts:21-26 | the derived list has the length and order of the results, and each element keeps its result's name and takes its `no` from its URL |
| `Seeding.DeriveEntriesCast` | src/seed/seed.service.ts:21-28 | the derived batch passes the Number cast exactly when every URL yields a number |
| `Seeding.SeedService.constructor` | src/seed/seed.service.ts:12-16 | the service uses the given collection |
| `Seeding.SeedService.ExecuteSeed` | src/seed/seed.service.ts:18-32 | the table is emptied first, so a failed fetch or a failed insert leaves it empty; with no fault it succeeds exactly when every URL yields a number and the derived ids and numbers are distinct; on success it returns "seed executed" and the table holds exactly the derived entries |
| `Scenarios.CreateThenFindByNumber` | src/pokemon/pokemon.service.ts:25-66 | after a successful create, findOne of the number in decimal returns the created entry |
| `Scenarios.PikachuIsFoundLowercase` | src/pokemon/pokemon.service.ts:25-66 | created as "Pikachu", the entry is found by "pikachu" and "Pikachu" is a NotFound |
| `Scenarios.DuplicateNumberIsRejected` | src/pokemon/pokemon.service.ts:25-34 | a second create with number 25 is a bad request naming 25, and only the first entry is stored |
| `Scenarios.EmptyTableFindsNothing` | src/pokemon/pokemon.service.ts:47-66 | findOne("999999") on an empty table is NotFound("999999") |
| `Scenarios.SecondPageOfTwo` | src/pokemon/pokemon.service.ts:36-45 | limit 2 and offset 1 over numbers 1 to 4 returns the entries numbered 2 and 3, in that order |
| `Scenarios.UpdateLowercasesName` | src/pokemon/pokemon.service.ts:47-79 | updating the name of the entry a number finds to "RAICHU" succeeds and returns "raichu", and findOne of the same number then returns exactly that entry |
| `Scenarios.UpdateWithOwnNumberSucceeds` | src/pokemon/pokemon.service.ts:68-79 | updating entry 1 by the term "1" with a patch that repeats `no` 1 and renames it to "RAICHU" succeeds and returns `{no: 1, name: "raichu"}` |
| `Scenarios.RemoveMissingIdChangesNothing` | src/pokemon/pokemon.service.ts:81-90 | removing an absent id is a bad request naming it, and the table is unchanged |
| `Scenarios.SeedBulbasaur` | src/seed/seed.service.ts:18-32 | seeding one result "bulbasaur" at `.../pokemon/1/` returns "seed executed" and leaves exactly `{no: 1, name: "bulbasaur"}` |

## Left out

- HTTP: the `AxiosAdapter` fetch and the fixed pokeapi URL are network I/O. The fetched `results` list (or a failed fetch) is a parameter of `ExecuteSeed`.
- NestJS plumbing: dependency injection, `ConfigService` (`defaultLimit` is a constructor argument), request-body validation, and the HTTP exception classes (kept as the `HttpError` datatype).
- Exception messages, including the `JSON.stringify` formatting. The model keeps only which error occurs and the value it names.
- Text.ToLower: only ASCII `A`–`Z` is lowercased. The locale-dependent Unicode mappings of `toLocaleLowerCase` are not modelled.
- Catalogue.IsNumeric: `!isNaN(+term)` is modelled for decimal digit strings. JavaScript number conversion also accepts `""`, whitespace, signs, hex, decimals and `Infinity`; those floating-point cases are not modelled. Numbers are unbounded integers here, while `+term`, Mongoose's Number cast and the stored `no` are JavaScript doubles: a digit string above 2^53 rounds in the source (`findOne("9007199254740993")` finds an entry numbered 9007199254740992, and `create` with `no` 2^53+1 stores 2^53), and the model does not round.
- Seeding.NoFromUrl: unary `+` on a URL piece is modelled the same way. A piece that is not a digit string counts as NaN. JavaScript reads the empty piece as 0; the model does not. A piece above 2^53 rounds to a nearby double in the source; the model keeps its exact value.
- Catalogue.IsValidObjectId: the check is the 24-hex-digit form of an ObjectId. Mongoose's `isValidObjectId` also accepts other forms, such as 12-character strings, and that library code is not part of this model.
- Mongoose casting of a term to a number, a term to an ObjectId, or an id in `deleteOne`: a cast failure inside those queries is not modelled.
- Store.Collection.FindOneByName: it returns some document with that exact name. MongoDB returns the first in natural order, which the model does not track.
- Store.Collection.InsertMany: it is modelled all-or-nothing. MongoDB's ordered `insertMany` keeps the documents before the first failing one, so a failed seed can leave that prefix in the table; that partial insert is not modelled.
- Store failures of `deleteMany` (src/seed/seed.service.ts:19), `deleteOne` (src/pokemon/pokemon.service.ts:83), `findOne` and `findById` (src/pokemon/pokemon.service.ts:50, 54, 58) and `find` (src/pokemon/pokemon.service.ts:37) are not modelled. The source does not catch them, so they would reach the caller as 500 responses; only `create`, `updateOne` and `insertMany` take a `fault`.
- Seeding.SeedService.ExecuteSeed: a failing `deleteMany` would leave the table unchanged and end the seed. Because that failure is not modelled, the promise that a failed seed leaves the table empty covers only a failed fetch and a failed insert.
- Stored ids are arbitrary strings given by the caller. The driver's ObjectIds are always lowercase hex, so a stored id of 24 hex digits with an upper-case letter, which the model allows, is one the id lookup and `Remove` can never match. A stored id that is not 24 hex digits is matched exactly as written.
- `select('-__v')` and `toJSON`: an entry is `{id, no, name}`, with no version key.
- `async`/`await` and concurrent requests: each operation runs alone. Uniqueness under concurrency is the database's job.

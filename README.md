# Mascota store: a Dafny model of the pet-record service

The service keeps one collection of pet records ("mascotas") in a JSON file
and exposes it over HTTP: list, get by id, create, update and delete. Each
request loads the whole collection, scans or changes it in memory and writes
it back. This project models the in-memory part of the four id-based
handlers of `index.js` and the Joi schema that create and update share.

- `schema.dfy` (module `Schema`): the request body `Body` (every key may be
  absent; JSON numbers are `real`), the stored record `Mascota`, the schema
  as the predicate `Valid`, the record POST builds (`Stamp`), and the shallow
  merge `{...old, ...body}` of PUT (`Merge`).
- `collection.dfy` (module `Collection`): `find`, `findIndex`, `splice` and
  the next-id rule as functions on `seq<Mascota>`. It also holds the
  invariant `Ordered` (ids strictly increase along the sequence) and the
  lemmas about how each request affects the collection.
- `handlers.dfy` (module `Handlers`): the class `MascotaStore`, whose field
  `data` is the stored collection. Its methods `Get`, `Create`, `Update` and
  `Delete` are the handlers, and `Outcome` is what each one answers.
- `scenarios.dfy` (module `Scenarios`): two request sequences run against a
  store. One is the create, get, delete walk-through. The other shows a PUT
  whose body carries an `id` leaving two records with the same id.
- `wrappers.dfy` (module `Wrappers`): `Option`.

Points where the code settles behaviour a reader might expect otherwise,
all followed by the model:
- The next id is the *last* record's id plus one, not the largest id plus one.
- The species values are `perro`, `gato` and `otro`.
- Joi's `string()` refuses the empty string by default, so each `historial`
  entry must be non-empty too.
- A PUT body may carry an `id`, and that id replaces the stored one.
  `Collection.ReplaceKeepsOrderIff` says exactly when the collection stays
  ordered after that. `Scenarios.BodyIdDuplicatesIds` shows a PUT followed by
  a POST that leaves two records holding the same id.

## Model

| member | source | states |
|---|---|---|
| `Schema.ValidRefuses` | index.js:11-20 | the schema refuses a missing required key, a species outside perro/gato/otro, a telephone that is not exactly ten digits, a negative or fractional age, a non-positive or fractional id, and an empty name, breed, owner or history entry |
| `Schema.Stamp` | index.js:53-56 | the record POST stores carries the assigned id and every other field of the body unchanged; it passes the schema again exactly when that id is positive |
| `Schema.MergeOfValidBody` | index.js:78 | merging a valid body gives the body's record with the old id kept exactly when the body has no id; a body id wins |
| `Schema.MergeKeepsWellFormed` | index.js:78 | a well-formed stored record merged with a valid body is still well-formed |
| `Collection.FindIndex` | index.js:75 | the result is the first index whose id matches; none is returned exactly when no record has the id |
| `Collection.Find` | index.js:36 | the result is the record at the first matching position and has the requested id; none is returned exactly when no record has the id |
| `Collection.NextIdIsFresh` | index.js:56 | on an ordered collection no record holds the id POST assigns |
| `Collection.RemoveAt` | index.js:97 | splice removes exactly the k-th record: one shorter, the records before k in place, those after shifted down by one, the multiset loses only that record |
| `Collection.OrderedIsSorted` | index.js:56 | ids increasing between neighbours are increasing between any two positions, which is why the last id bounds all ids |
| `Collection.OrderedIsUnique` | index.js:56-57 | an ordered collection has no two records with the same id |
| `Collection.CreateKeepsOrder` | index.js:56-57 | appending the record POST builds keeps an ordered collection ordered and its ids unique |
| `Collection.DeleteKeepsOrder` | index.js:94-97 | removing any record keeps an ordered collection ordered |
| `Collection.ReplaceKeepsOrderIff` | index.js:75-78 | replacing the k-th record keeps the collection ordered if and only if the new id lies strictly between its neighbours' ids |
| `Collection.UpdateKeepsOrder` | index.js:75-78 | a PUT whose body has no id, or the same id, keeps the collection ordered |
| `Collection.CreateThenFind` | index.js:53-57 | after a POST on an ordered collection, looking up the assigned id returns the created record |
| `Collection.DeleteThenFind` | index.js:94-97 | after a DELETE that found the id on an ordered collection, looking the id up again finds nothing |
| `Collection.UpdateThenFind` | index.js:75-78 | after a PUT that found the id with a body that keeps it, looking it up returns the merged record |
| `Collection.CreateOnDenseIds` | index.js:56 | on a collection holding ids 1..n, POST assigns n + 1, so consecutive POSTs from empty assign 1, 2, 3, ... |
| `Collection.DeleteLastAllowsReuse` | index.js:56 | after deleting the last record of an ordered collection of positive ids, the next POST assigns an id no greater than the deleted one |
| `Handlers.MascotaStore.Get` | index.js:29-43 | a missing path id answers BadId; otherwise Ok with the first record whose id matches, or NotFound exactly when none does; the collection is not touched |
| `Handlers.MascotaStore.Create` | index.js:46-60 | an invalid body answers Invalid and changes nothing; a valid one is stored at the end with the next id, the client id discarded, every earlier record in place; order is preserved |
| `Handlers.MascotaStore.Update` | index.js:63-84 | BadId before validation, Invalid before lookup, NotFound when no record matches, each leaving the collection unchanged; otherwise only the first matching record changes, to the merged record, and is returned; order is preserved when the body keeps the id |
| `Handlers.MascotaStore.Delete` | index.js:87-103 | BadId or NotFound leave the collection unchanged; otherwise exactly the first matching record is removed, the rest keep their order, and on an ordered collection the id is gone |
| `Scenarios.CreateGetDeleteWalkthrough` | index.js:29-103 | on an empty collection two POSTs get ids 1 and 2, GET 1 returns the first, DELETE 1 answers NoContent and a second GET 1 answers NotFound |
| `Scenarios.BodyIdDuplicatesIds` | index.js:53-80 | PUT 1 with body id 3 on ids [1, 2], then POST of a different body, leaves ids [3, 2, 3]: no longer ordered, two different records share id 3, and GET 3 returns the updated record, not the created one |

## Left out

- `data.js` (`readData`, `writeData`): file I/O and JSON parsing and
  printing. The store's `data` field stands for the file contents before and
  after a request. A missing or corrupt file is not modelled.
- The list-all handler (index.js:23-26): it returns the stored sequence as
  it is.
- Express routing, `bodyParser`, status codes, response bodies and
  `app.listen`. Only the outcome tag is kept.
- `parseInt` on the path id: the handlers receive its result as
  `Option<int>`, with `None` for NaN. Prefix parsing and whitespace are not
  modelled.
- Joi's error messages and which violation it reports first: only accept or
  reject is modelled.
- Joi's refusal of keys the schema does not name, and of values of the wrong
  JSON type. The body's fields already have the schema's types.
- Numeric strings: Joi converts by default, so `"id": "5"` or `"edad": "3"`
  passes the schema (index.js:12, 16), but the handlers store the body as
  sent, not Joi's converted value (index.js:53, 78). A string id then never
  matches the strict comparison of a lookup (index.js:36, 75, 94), and as the
  last record it turns the next POST's id into a string concatenation
  (index.js:56). The model has numbers only and does not capture this.
- Joi's refusal of numbers outside the safe-integer range, and JavaScript's
  double-precision rounding of `id + 1`. Numbers are exact.
- Extra keys a stored record might carry from the file. `Mascota` has
  exactly the schema's keys, and stored ids are integers.
- Concurrent requests racing on the shared file: the model runs one request
  at a time.

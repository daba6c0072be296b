# Movies API: validated in-memory store

A model of the core of a small Express API that serves movie records from an
in-memory array. Two parts are modelled:

- **The movie schema** (`schemas/movies.js`), module `MovieSchema` in
  `movie_schema.dfy`. The request body is a JSON object (`map<string, Value>`,
  see `json.dfy`). `Accepts` states each field's rule:
  - `title` and `director` are any strings;
  - `year` is an integer between 1900 and the schema's upper year;
  - `duration` is an integer greater than 0;
  - `rate` is a number in [0, 10];
  - `poster` is a string that passes the URL check;
  - `genre` is an array of tokens drawn from {action, comedy, drama, horror, sci-fi}.

  `ValidateMovie` is full validation: every field is required except `rate`,
  which defaults to 5. `ValidatePartial` is partial validation: every field is
  optional, and no default is filled in. Both return the typed data or the
  exact set of offending fields. Keys outside the schema (`id` among them) are
  stripped (`Known`). `Overwrite` is the merge `{...old, ...patch}` on the data.
- **The record store and its handlers** (`app.js`), module `MovieApi` in
  `movie_api.dfy`.
  - `GET /movies` is `ListMovies`, built on the genre filter `FilterGenre`.
  - `GET /movies/:id` is `GetMovie`, built on `FirstIndex` (the source's
    `find`/`findIndex`, with -1 for a miss).
  - `POST`, `PATCH` and `DELETE` are the methods `Create`, `Patch` and
    `Delete` of class `Store`. The class holds the `movies` sequence and the
    schema built at load time. Each method states its outcome and the whole
    new store, and keeps the invariant `Valid()`: every record is fully valid
    and ids are unique.

The schema is a value `Schema(maxYear, isUrl)`. It is built once, and the
store keeps it in a `const`. This matches the source, where the year bound is
read once, when the schema module loads.

Three behaviours of the code differ from what a reader of the API might
expect, and the model follows the code:
- the code has no non-emptiness check on `title`, `director` or `genre`
  (`EmptyTextAndGenreAccepted`);
- the upper year bound is fixed when the module loads, not at each validation;
- `PATCH` validates the body before it looks up the id, so an invalid body
  for an absent id is a validation error, not not-found.

## Model

| member | source | states |
|---|---|---|
| MovieSchema.ValidateMovie | schemas/movies.js:3-27 | Succeeds iff every required field is present and valid and `rate` is absent or valid. On success the data is valid and serialises to the body's schema keys, with `rate` defaulted to 5. On failure the errors are exactly the missing or invalid fields. |
| MovieSchema.ValidatePartial | schemas/movies.js:3-31 | Succeeds iff every present field passes the same per-field rule. On success the patch serialises to exactly the body's schema keys (no `rate` default). On failure the errors are exactly the present invalid fields. |
| MovieSchema.ValidDataRoundTrip | schemas/movies.js:3-27 | A serialised record passes full validation iff it is valid, and validation then returns the same data. |
| MovieSchema.FullImpliesPartial | schemas/movies.js:25-31 | Whatever full validation accepts, partial validation accepts. Every field partial validation rejects, full validation rejects too. |
| MovieSchema.FullPatchReplaces | schemas/movies.js:15-31 | A fully valid body used as a patch replaces every field. The exception is `rate` when the body omits it: partial validation adds no default, so the old rate stays. |
| MovieSchema.EmptyBodyErrors | schemas/movies.js:3-23 | An empty body fails full validation on exactly title, year, director, duration, poster and genre. |
| MovieSchema.EmptyTextAndGenreAccepted | schemas/movies.js:4-22 | Empty title, empty director and an empty genre list pass full validation. |
| MovieSchema.OverwriteIsSpread | app.js:75-78 | The typed merge serialises to the object spread of the old record's JSON and the patch's JSON: present keys overwrite, absent keys stay. |
| MovieSchema.OverwriteValid | app.js:75-78 | Merging a partially valid patch over fully valid data yields fully valid data. |
| MovieApi.FirstIndex | app.js:70 | Returns -1 iff no record has the id. Otherwise it returns the first index whose record has the id. |
| MovieApi.GetMovie | app.js:38-45 | Returns nothing iff no record has the id. Otherwise it returns the record with that id at the first matching index. |
| MovieApi.FilterGenre | app.js:29-31 | A record is in the result iff it is in the store and lists a genre equal to the query after lower-casing. The result is no longer than the store. |
| MovieApi.ListMovies | app.js:27-35 | With no query or an empty query, the result is the whole store unchanged. With a non-empty query, it is exactly the records having that genre. |
| MovieApi.FilterAppend | app.js:29-31 | Filtering a concatenation gives the concatenation of the filtered parts, so store order is kept. |
| MovieApi.FilterCaseInsensitive | app.js:30 | Queries with equal lower-cased forms filter identically. |
| MovieApi.ListCaseInsensitive | app.js:27-33 | Queries with equal lower-cased forms list the same records. |
| MovieApi.UpperAndLowerQueryAgree | app.js:28-33 | `?genre=ACTION` and `?genre=action` list the same records. |
| MovieApi.GetAfterAppend | app.js:54-58 | After appending a record with a fresh id, lookup by that id returns the record. |
| MovieApi.RemoveKeepsOthers | app.js:93 | Removing index i shortens the store by one. Every other record keeps its relative order (index j shifts to j-1 past i). The removed record is the only element lost from the multiset. |
| MovieApi.GetAfterRemove | app.js:89-93 | With unique ids, removing the first match leaves no record with that id. |
| MovieApi.GetAfterUpdate | app.js:70-79 | After the first match is replaced by a record with the same id, lookup returns the replacement. |
| MovieApi.ValidAfterAppend | app.js:54-58 | Appending a valid record with a fresh id keeps every record valid and ids unique. |
| MovieApi.ValidAfterUpdate | app.js:70-79 | Merging a valid patch into one slot keeps every record valid and ids unique. |
| MovieApi.ValidAfterRemove | app.js:89-93 | Splicing out one record keeps every record valid and ids unique. |
| MovieApi.Store.constructor | app.js:3 | The store starts as the given seed records, with the given schema. |
| MovieApi.Store.Create | app.js:47-60 | Invalid body: validation errors and the store unchanged. Valid body: the store becomes the old store plus the new record at the end (validated data and the fresh id), which is returned and then found by id. Keeps `Valid()`. |
| MovieApi.Store.Patch | app.js:62-81 | Invalid body: validation errors and the store unchanged, even for an absent id. Absent id: not-found and the store unchanged. Otherwise only the first matching slot changes, to the old record merged with the patch, with id unchanged; the result is returned and found by id. Keeps `Valid()`. |
| MovieApi.Store.Delete | app.js:83-95 | Absent id: not-found and the store unchanged. Otherwise the store is exactly the old store without its first matching record. With unique ids, the id is then no longer found. Keeps `Valid()`. |
| MovieApi.YearOnlyPatch | schemas/movies.js:29-31 | A body holding only a valid `year` validates to a patch of the year alone. |
| MovieApi.ExampleSession | app.js:38-94 | Store seeded with one record: get by id finds it; a patch of `year` to 2001 changes only the year; after delete, get by id finds nothing. |

## Left out

- Express setup, routing, `express.json()`, status codes and response serialisation (app.js:1-14, 108-113): each handler returns a `Reply` (`Done`, `Removed`, `NotFound`, `Rejected`) instead.
- CORS origin echoing and the OPTIONS preflight (app.js:16-26, 84-87, 97-107): they only set headers and never touch the store.
- `crypto.randomUUID()`: the fresh id is a parameter of `Create`. A precondition requires it to differ from every stored id.
- Loading the seed from `movies.json`: that file is not part of this model. The seed is a parameter of the constructor. The invariant is preserved, not assumed: each method ensures `old(Valid()) ==> Valid()`.
- The URL check of the validation library: `isUrl` is a predicate supplied with the schema.
- `new Date().getFullYear()`: the upper year is the `maxYear` of the schema, fixed when the schema is built.
- The validation library's error messages and their JSON re-encoding: errors are the set of offending fields.
- JavaScript numbers: a JSON number is an exact `real`, so floating-point rounding is not modelled. Integer checks use `Floor`.
- `toLowerCase`: modelled as an ASCII fold (`LowerChar`). Full Unicode case mapping is not modelled.
- Request bodies that are not JSON objects (the validation library rejects them at the root), and `genre` query values that are arrays (where `toLowerCase` would throw). The body is always an object and the query is at most one string.
- Stored records carrying keys beyond the schema: a record is the id plus the typed data, so such keys cannot occur in the model.

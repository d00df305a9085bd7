# Fragment model

A model of the fragment model of the fragments microservice: a fragment is an
owner-scoped, typed blob whose metadata (id, owner, content type, size,
creation and update times) and raw data are kept apart in a backend store
keyed by (ownerId, id). The model covers

- `MediaType` (media_type.dfy): the `type` part of a Content-Type value (the
  text before the first `;`, trimmed as JavaScript's `trim` does), the closed
  set of four supported types and the fixed, ordered conversion table;
- `Backend` (backend.dfy): the store the model persists to, a class holding a
  metadata map and a data map keyed by (ownerId, id), the order in which
  metadata keys were first written (which listing follows), and a ghost log of
  every write, so the order of writes can be stated;
- `Fragments` (fragment.dfy): constructor validation and defaults
  (`Construct`, `Fragment.New`), the `Fragment` class with `Save`, `GetData`,
  `SetData`, the accessors `MimeType`, `IsText`, `Formats`, the conversion
  decision `ConvertData`, and the static registry operations `ById`, `ByUser`
  and `Delete`;
- `Wrappers` (wrappers.dfy): `Option`, `Result` and `Outcome` for `undefined`
  results and thrown errors.

What the source takes from its environment is a parameter: `freshId` is the
value of `randomUUID()` (never empty), `now` (in the constructor, which reads
the clock twice, `createdNow` and `updatedNow`) a reading of
`new Date().toISOString()`, `render` markdown-it's `md.render` and `toText`
`Buffer.prototype.toString`. A string argument that is `undefined` or empty
(both falsy in JavaScript) is written `""`. The backend store is passed to
each operation explicitly instead of being a module-level import.

Two points where the code is weaker than a design for it might suggest, and
the model follows the code:

- Metadata and data are not kept both-or-neither: `save` alone writes only the
  metadata record, so a saved fragment without data is a reachable state. The
  model states `size == |data|` only as what `SetData` establishes.
- `convertData` compares the target with `formats` as plain strings, so a
  target carrying parameters (`text/html; charset=utf-8`) is never
  convertible, although `isSupportedType` accepts it.

## Model

| member | source | states |
|---|---|---|
| `MediaType.TrimStartSpec` | src/model/fragment.js:128 | trimming the start of a Content-Type value drops exactly a leading run of white space and keeps the rest |
| `MediaType.TrimEndSpec` | src/model/fragment.js:128 | trimming the end drops exactly a trailing run of white space and keeps the rest |
| `MediaType.TrimSpec` | src/model/fragment.js:128 | `trim()` leaves no white space at either end, introduces no character, and leaves a trimmed string unchanged |
| `MediaType.BeforeSemicolonSpec` | src/model/fragment.js:128 | the part before the first `;` is a prefix with no `;`, followed in the value by `;` or by nothing; a value without `;` is kept whole |
| `MediaType.BeforeSemicolonOfParameters` | src/model/fragment.js:123-129 | whatever parameters follow the first `;`, the part before it is the bare type |
| `MediaType.ParseType` | src/model/fragment.js:127-130 | `contentType.parse(value).type`: the media type holds no `;` and no surrounding white space; a bare trimmed type parses to itself |
| `MediaType.ParseTypeIgnoresParameters` | src/model/fragment.js:123-130 | `type; params` has the media type of `type` ("text/html; charset=utf-8" gives "text/html") |
| `MediaType.ParseTypeIdempotent` | src/model/fragment.js:127-130 | the media type of a media type is itself |
| `MediaType.IsSupportedType` | src/model/fragment.js:183-187 | `isSupportedType`: a value is supported exactly when the conversion table has a row for its media type (parameters ignored) |
| `MediaType.SupportIgnoresParameters` | src/model/fragment.js:178-187 | a value with parameters is supported exactly when its bare type is |
| `MediaType.CharsetIsIgnored` | src/model/fragment.js:178-187 | "text/html; charset=utf-8" is supported |
| `MediaType.SupportedTypeIsBare` | src/model/fragment.js:183-187 | each of the four supported types is its own media type and is supported as written |
| `MediaType.FormatsOf` | src/model/fragment.js:145-159 | the table is non-empty exactly for the four supported types; each row starts with its own type, ends with text/plain, lists only supported types and none twice |
| `MediaType.FormatsAreBare` | src/model/fragment.js:145-159 | no format in the table carries parameters |
| `MediaType.TextTypes` | src/model/fragment.js:136-139 | among the supported types, exactly the non-JSON ones start with "text/" |
| `Backend.Store.WriteFragment` | tests/unit/memory.test.js:24-28 | a metadata write files the record under its own owner and id, so a read returns it; data and other records are untouched; the write is logged |
| `Backend.Store.ReadFragment` | tests/unit/memory.test.js:24-28 | a metadata read returns the stored record, or nothing when none is stored |
| `Backend.Store.WriteFragmentData` | tests/unit/memory.test.js:30-34 | a data write replaces the data of that owner and id only; metadata and listing order are untouched; the write is logged |
| `Backend.Store.ReadFragmentData` | tests/unit/memory.test.js:30-34 | a data read returns the stored bytes, or nothing when none are stored |
| `Backend.IdsOf` | tests/unit/memory.test.js:36-40 | the ids taken from a key list are exactly the ids of that owner's keys, without duplicates when the keys have none |
| `Backend.Store.ListFragments` | tests/unit/memory.test.js:36-40 | listing gives exactly the ids of the owner's stored records, each once |
| `Backend.Without` | tests/unit/memory.test.js:48-59 | removing a key from the listing order keeps every other key and no duplicates |
| `Backend.Store.DeleteFragment` | tests/unit/memory.test.js:48-59 | a delete removes both the record and the data of that owner and id and nothing else; the delete is logged |
| `Fragments.Construct` | src/model/fragment.js:19-36 | construction fails with the owner error when the owner is missing, else with the type error when the type is not supported, else with the size error when the size is non-numeric or negative; on success the record is valid, keeps the owner and type as given, keeps any given id, created and updated, generates only missing ones, and the size defaults to 0 |
| `Fragments.ConstructDefaults` | src/model/fragment.js:19-35 | a fragment built from an owner and a type alone has the generated id, size 0, `created` from the constructor's first clock reading and `updated` from its second (the two may differ) |
| `Fragments.Fragment.FromRecord` | src/model/fragment.js:30-35 | the constructor's field assignments store exactly the validated record |
| `Fragments.Fragment.New` | src/model/fragment.js:19-36 | `new Fragment(...)` throws exactly what `Construct` rejects, otherwise yields a new valid fragment holding `Construct`'s record |
| `Fragments.Fragment.MimeType` | src/model/fragment.js:127-130 | `mimeType` has no parameters and, for a valid fragment, is one of the four supported types |
| `Fragments.Fragment.IsText` | src/model/fragment.js:136-139 | `isText` holds for a valid fragment exactly when its media type is not application/json |
| `Fragments.Fragment.Formats` | src/model/fragment.js:145-159 | `formats` of a valid fragment starts with its own media type and ends with text/plain; every entry is a supported type |
| `Fragments.Fragment.GetData` | src/model/fragment.js:103-105 | `getData` reads the data stored under the fragment's own owner and id, or nothing |
| `Fragments.Fragment.Save` | src/model/fragment.js:94-97 | `save` stamps `updated` and then writes the fragment's record under its owner and id, changing nothing else; it keeps the store consistent |
| `Fragments.Fragment.SetData` | src/model/fragment.js:112-120 | a non-Buffer is rejected with nothing changed; a Buffer sets size to its length and stamps updated, the data is written before the metadata (log order), the data then reads back as the Buffer and the stored size equals its length |
| `Fragments.Fragment.ConvertData` | src/model/fragment.js:161-175 | no result exactly when the target is not among `formats` (so the support check decides nothing more); HTML is rendered only for markdown asked for as text/html; every other allowed target returns the stored data unchanged |
| `Fragments.Fragment.ById` | src/model/fragment.js:58-78 | not found exactly when no record is stored; a stored record succeeds exactly when the constructor accepts its owner and type, and otherwise fails with the constructor's own error (owner first, then type); a success is a valid fragment with the stored owner, type, size and both stored timestamps (none re-stamped), and the stored id when it is non-empty |
| `Fragments.All` | src/model/fragment.js:47 | `Promise.all`: succeeds exactly when every lookup does, with one value per lookup in order; a failure is the error of some failing lookup |
| `Fragments.Fragment.LookUpAll` | src/model/fragment.js:47 | one `byId` lookup per listed id, in the same order |
| `Fragments.Fragment.ByUser` | src/model/fragment.js:44-50 | unexpanded, the store's id list as it is; expanded, it succeeds exactly when `byId` succeeds for every listed id, giving one fragment per listed id in the same order, each equal to `byId` of that id; a failure is the error of some listed id's `byId` |
| `Fragments.Fragment.Delete` | src/model/fragment.js:86-88 | after `delete`, neither metadata nor data is stored for the pair, `byId` of the pair is not found (for any generated id), and nothing else changes |
| `Fragments.ByIdReturnsStored` | src/model/fragment.js:58-78 | a stored record with an id, an owner and a supported type comes back from `byId` exactly as stored |
| `Fragments.ByUserExpandedMatchesIds` | src/model/fragment.js:44-50 | in a consistent store the expanded listing never fails and holds, for each listed id in order, that id's stored record |
| `Fragments.ConvertToOwnType` | src/model/fragment.js:171-173 | asking for the fragment's own media type returns the stored data unchanged |
| `Fragments.ConvertToPlainText` | src/model/fragment.js:171-173 | every supported fragment, JSON included, converts to text/plain as its stored data unchanged |
| `Fragments.ConvertMarkdownToHtml` | src/model/fragment.js:168-170 | markdown asked for as text/html is the renderer's output on the stored text |
| `Fragments.PlainTextIsNotHtml` | src/model/fragment.js:164 | a text/plain fragment asked for as text/html is not convertible |
| `Fragments.ConvertRejectsParameters` | src/model/fragment.js:164 | a target with parameters is never convertible |

## Left out

- Asynchrony: every backend call is one synchronous step; `Promise.all` in `byUser` fails with the first failing lookup in list order rather than the first to fail in time, and interleavings between requests are not modelled.
- Backend failures: every backend call succeeds; a rejected write (a storage error) and the partial state it can leave after `setData` are not modelled, since the source has no handling of its own and only propagates the rejection. What the backend does when deleting a missing entry is not modelled either: deletion is total.
- The backend implementations (`./data`, memory and cloud) are not part of this model; only their read/write/list/delete contract is, as the memory-store unit tests state it.
- `randomUUID` and `Date`: ids and clock readings are parameters. The constructor's two clock readings are two parameters, so nothing makes `created` equal `updated` at construction; the reading `setData` takes is overwritten by the one `save` takes, so only the latter is modelled.
- markdown-it and `Buffer.prototype.toString` are the parameters `render` and `toText`; what they compute is not modelled.
- The `content-type` package: only "text before the first `;`, trimmed" is modelled. Its lower-casing of the type and its exceptions on malformed values (bad type syntax, bad parameters) are not.
- Fragments.Fragment.ConvertData: a malformed target makes the source's `isSupportedType` throw; the model answers not convertible instead.
- Fragments.Construct: arguments are strings or the `SizeArg` cases; other JavaScript values (a numeric owner, an object type) are not modelled, and sizes are integers, so NaN (which passes the source's `size < 0` check), fractions and Infinity are not modelled.
- Fragments.Fragment.ById: returns the rebuilt fragment's field values (a `Metadata` record) rather than a new object; `Fragment.FromRecord` turns such a record into an object. The store keeps records, not live objects, so the `instanceof Fragment` branch is not modelled, nor is the redundant second `readFragment`.
- Fragments.Fragment.ByUser: one generated id is passed to every rebuild; this differs from the source only for a stored record with an empty id, which a consistent store does not hold.
- JavaScript lets any code reassign a fragment's public fields; the model assumes only the fragment's own operations change them.
- The Express routes, authentication, HTTP status codes and extension lookup are not part of this model.

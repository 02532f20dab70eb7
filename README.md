# Student records: a verified model of the backend's record lifecycle

The backend serves one resource, students. Each student has a name, an email, a phone number, an optional profile picture and an optional parent student. Two stores hold the data:

- a document store, a collection of `Student` documents keyed by a store-assigned id;
- the `uploads/` directory, where the upload middleware writes each picture under its original file name.

The handlers read and change both stores one step at a time. None of the steps is transactional: a step that throws ends the request with a 500, and whatever was done before it stays done.

The model has three files:

- `records.dfy` (module `Records`) has the data model and the pure parts of the handlers. The document store is a `map<Id, Student>` and `uploads/` is a `set<string>` of file names. The module defines the store's queries in natural order, the `forEach(unlinkSync)` loop as a function (`UnlinkEach`), and the whole delete handler as a function of both stores (`DeleteOutcome`). It also holds the lemmas about the cascade.
- `server.dfy` (module `Server`) has class `StudentStore`. Its fields are `records`, `blobs` and the next id to hand out. Its methods are the five handlers, plus two helpers, for the upload middleware and for `fs.unlinkSync`. `Delete` runs the unlink loop over the children as a `while` loop and is proved equal to `DeleteOutcome`. `Create` and `Update` state their new state outright.
- `scenarios.dfy` (module `Scenarios`) has short client sequences on a fresh store: create then get; deleting a parent with one child; updating without a file; a child without a picture blocking the delete; re-uploading under the same name; a malformed id.

Modelling choices:

- Ids are natural numbers handed out in increasing order. The queries `find()` and `find({parent})` sort nothing; the model assumes they return records in ascending id, i.e. creation order (see "## Left out").
- A request id is either a well-formed `ObjectId(id)` or `Malformed(text)`. `ValidId` tells them apart. A malformed id makes the store's cast throw, so the handler answers InternalError.
- `name`, `email` and `phone` arrive as a `FormField`: `Absent` (left out, stored as undefined), `Text(s)`, or `Uncastable` (a repeated multipart field or a JSON object, which the store's String cast rejects when the document is saved). They are stored as `Option<string>`. `profile` is `""` when no picture was uploaded. `parent` is `None` for a root record.
- An upload's file name is never empty (`FileName`). Unlinking `uploads/<p>` fails when `p` is not in the blob set. It also fails when `p` is `""`, because the path is then the `uploads/` directory itself.
- The handlers answer `Reply<T>`: `Ok(value)`, `NotFound` (404) or `InternalError` (500).

Three behaviours of the delete handler are easy to misread; the model follows the code:

- The handler unlinks every child's profile, empty or not. An empty profile then fails, so a child without a picture makes its parent's delete answer 500 before any record is deleted. See `DeleteBlockedByChildWithoutProfile`.
- On an id with no record, the handler still removes that id's children and their pictures before it answers 404. See `DeleteAbsentAfterChildren`.
- A record that is its own parent is among its own children. The bulk delete removes it, so the handler then answers 404.

## Model

| member | source | states |
|---|---|---|
| `Server.StudentStore.Receive` | backend/server.js:73-81 | the upload middleware adds the uploaded file's original name to the blob set before the handler runs; a namesake is replaced, so the name simply stays |
| `Server.StudentStore.Unlink` | backend/server.js:143 | `unlinkSync` (here and at lines 163 and 173) succeeds exactly when the name is non-empty and present, and then removes only that name; on failure nothing changes |
| `Server.StudentStore.List` | backend/server.js:84-92 | the reply holds every stored record, each exactly as stored, once, in ascending id order |
| `Server.StudentStore.Get` | backend/server.js:95-106 | malformed id gives InternalError, absent id gives NotFound, present id gives the stored record; neither store is modified (no frame) |
| `Server.StudentStore.Create` | backend/server.js:109-126 | the upload stays in the blob set; a malformed parent or an uncastable text field fails the save with InternalError, the records and the id counter unchanged; otherwise the new record has a fresh id not in the store, name/email/phone/parent verbatim, profile = uploaded name or "", and no other record changes |
| `Server.StudentStore.Update` | backend/server.js:129-154 | malformed id gives InternalError, absent id gives NotFound, both leaving records unchanged and the upload in place; otherwise name/email/phone are overwritten while id and parent are kept; without an upload profile and blobs are unchanged; with one, a non-empty old profile is unlinked first (a missing one gives InternalError, record not saved) and profile becomes the new name; an uncastable text field then fails the save with InternalError, the record unchanged but its old blob already gone; a same-named upload is itself unlinked and the record points at a missing blob |
| `Server.StudentStore.Delete` | backend/server.js:157-181 | the new records, blobs and reply are exactly `DeleteOutcome` of the old stores; the child unlink loop is proved against `UnlinkEach` |
| `Records.InOrder` | backend/server.js:86 | `find()` yields every record with an id below the bound, each as stored, strictly ascending by id |
| `Records.ChildIds` | backend/server.js:161 | `find({parent: id})` yields exactly the ids whose record has that parent, strictly ascending |
| `Records.Profiles` | backend/server.js:162 | `children.map(el => el.profile)`: one name per child, in the children's order, each that child's profile |
| `Records.WithoutChildren` | backend/server.js:165 | `deleteMany({parent: p})` keeps exactly the records whose parent is not p, each unchanged |
| `Records.UnlinkEach` | backend/server.js:162-163 | the loop unlinks a prefix of the names, each one present and distinct, and removes exactly those; it stops early only at a name that cannot be unlinked |
| `Records.UnlinkEachCompletes` | backend/server.js:163 | the loop runs to the end if and only if every name is a distinct existing file |
| `Records.UnlinkEachStopsAtEmptyName` | backend/server.js:162-163 | an empty name (the uploads/ directory) always stops the loop, at or before its position |
| `Records.DeleteOutcome` | backend/server.js:157-181 | a delete never adds or edits a record and never adds a blob: the records left are a subset of the old ones, each unchanged, and the blob set only shrinks |
| `Records.DeleteAbortsInLoop` | backend/server.js:163 | a failed child unlink answers InternalError with every record kept; the profiles unlinked before it stay unlinked, and the one it stopped at cannot be unlinked |
| `Records.DeleteBlockedByChildWithoutProfile` | backend/server.js:161-163 | any child with an empty profile makes the delete answer InternalError with every record kept |
| `Records.DeleteRemovesOneLevel` | backend/server.js:165-166 | after the loop, the records left are exactly those that are neither the id nor a direct child of it, each unchanged |
| `Records.DeleteKeepsGrandchildren` | backend/server.js:165 | a grandchild (child of a deleted child) survives unchanged |
| `Records.DeleteAbsentAfterChildren` | backend/server.js:165-169 | an absent or self-parented id answers NotFound after its children and their blobs are already removed |
| `Records.DeleteOwnProfile` | backend/server.js:166-175 | for a present record, its own blob is removed if and only if its profile is non-empty; a missing blob gives InternalError with the records already gone |
| `Records.DeleteSucceedsIff` | backend/server.js:157-181 | the delete answers Ok exactly when the id is well formed, every child profile is a distinct existing file, the record exists and is not its own parent, and its own profile is empty or still present |
| `Records.RemovedCount` | backend/server.js:165-166 | dropping a record that is not its own parent together with its N children leaves exactly N + 1 fewer records |
| `Records.DeleteCount` | backend/server.js:165-166 | a successful delete of a record with N children removes exactly N + 1 records |

## Left out

- InOrder, ChildIds and Delete assume the store returns query results in ascending id (creation order). MongoDB promises no natural order and the handlers sort nothing. The order decides which child blobs are already gone when the unlink loop stops early, so `Delete`'s blob set holds under this assumption only.
- The database connection and its event logging (backend/server.js:9-20) are I/O setup. Store unavailability is not modelled, so List never fails.
- The unused `subuserSchema` (backend/server.js:22-27) is never referenced.
- CORS, JSON body parsing and static serving of `uploads/` (backend/server.js:48-70) are framework configuration.
- The middleware's disk storage is modelled only as "the file is added under its original name" (backend/server.js:73-81). Failures inside the middleware are not modelled.
- How ObjectIds are parsed is not modelled; `ValidId` stands for it. A document's `_id` is a counter, not a 12-byte ObjectId.
- JSON bodies, HTTP status codes beyond `Reply`, console logging and `app.listen` (backend/server.js:184-186) are not modelled.
- Concurrency between requests is not modelled: each handler is one sequential operation.
- Records without a `profile` field (an absent profile unlinks `uploads/undefined`) are not modelled. Every record here is made by Create, which always sets `profile`.

# Todo service: a Dafny model of its store and request handlers

The service keeps todo items in one SQLite table, `todos(todo_id INTEGER PRIMARY KEY
AUTOINCREMENT, content TEXT NOT NULL, completed BOOLEAN NOT NULL DEFAULT 0)`, and has
five handlers: list, get, create, partial update and delete. Each handler runs inside
one scoped connection. The connection commits when the handler returns normally. It
rolls back when the handler raises.

The model replaces SQLite and the web framework with an abstract table:

- `schema.dfy` (module `TodoSchema`): the records, the two request bodies, and the
  validation that the `TodoCreate` and `TodoUpdate` schemas perform before a handler
  runs. Content must be non-empty. Update fields are optional. `completed` defaults
  to false on create. A JSON field can be left out, sent as `null`, or sent with a
  value. `TodoCreate` rejects `null`. `TodoUpdate` reads `null` as "not supplied".
  This module also holds `row_to_todo` and the bool-to-integer storage of `completed`.
- `table.dfy` (module `TodoTable`): the table as a value. It is a map from `todo_id`
  to the other columns, plus the AUTOINCREMENT high-water mark (`sequence`, SQLite's
  `sqlite_sequence.seq`). The invariant `Valid` says that every key lies in
  `1..sequence` and that every row has non-empty content and a stored bool. For each
  handler there is a specification function. It gives the table the handler leaves
  behind and the response it returns. Lemmas relate several operations to each other.
- `storage.dfy` (module `Storage`): the database file as a class (`Database`) and one
  open transaction as a class (`Connection`). A connection works on its own copy of
  the table. `Close(raised)` either commits that copy or rolls back. The statements
  the handlers send (`SELECT … WHERE todo_id = ?`, `SELECT … ORDER BY todo_id`,
  `INSERT`, `UPDATE … SET …`, `DELETE`) are modelled by what they do to the table.
- `api.dfy` (module `TodoApi`): the five handlers as methods over a `Database`, and
  the builder of the SET list and parameter list used by `update_todo`. Each handler
  is proved to produce exactly the table and the response that its `TodoTable`
  function specifies. `Session` is a client that strings the handlers together and
  checks what their contracts promise.

Errors are values of `Response`: `NotFound(id)` for the 404s, `ValidationError(...)`
for a body the schema rejects, and `StorageFailure` for an exception sqlite3 raises
inside the transaction. The model has two such exceptions. One is binding an id
outside the signed 64-bit range (Python ints are unbounded; SQLite INTEGERs are not).
The other is an AUTOINCREMENT insert once the largest INTEGER has been used
(SQLITE_FULL).

Two consequences of the code that a reader might not expect:

- ids start at 1, because that is the first key AUTOINCREMENT hands out
  (main.py:61).
- Schema validation runs before the handler (main.py:84-96, 259). So an update
  whose body fails validation is a validation error even when the id does not exist.

## Model

| member | source | states |
|---|---|---|
| `TodoSchema.ValidateCreate` | main.py:72-81 | A create body is accepted exactly when content is present and non-empty and `completed` is not null. Accepted content is what was sent. `completed` is what was sent, or false when it was left out. A rejection names exactly the faulty fields: missing, null or empty content, and a null flag. It names nothing else, and a fault of content comes before the fault of the flag. |
| `TodoSchema.ValidateUpdate` | main.py:84-96 | An update body is rejected exactly when content is the empty string. Otherwise each field is `Some` exactly when a value was sent; a null or an omitted field is `None`. |
| `TodoSchema.Supplied` | main.py:91-96 | An optional field is `Some` exactly when a value was sent, and then holds that value. |
| `TodoSchema.BoolToSql` | main.py:240-241 | A bool is stored as 0 or 1, and the stored integer is non-zero exactly when the bool is true. |
| `TodoSchema.RowToTodoReadsBack` | main.py:118-132 | Converting a row written from a bool gives back the same id, content and bool. |
| `TodoTable.Scan` | main.py:181 | The ordered key scan contains exactly the keys in range, in strictly increasing order. |
| `TodoTable.ScanAgrees` | main.py:181 | Two key sets that agree on a range give the same scan of that range. |
| `TodoTable.OrderedRows` | main.py:181-182 | `SELECT * ORDER BY todo_id` returns each stored row once, as stored, in strictly ascending id order, and returns nothing for an empty table. |
| `TodoTable.ToTodos` | main.py:183 | The list comprehension converts each fetched row, in order. |
| `TodoTable.List` | main.py:180-183 | The listing holds every stored todo exactly once, in strictly ascending id order, each equal to its stored row. An empty table lists as `[]`. |
| `TodoTable.Get` | main.py:208-216 | Get returns the stored todo for a present id. It returns NotFound for an absent id, and a storage failure for an id that cannot be bound. |
| `TodoTable.Create` | main.py:238-247 | Create validates first and never reports NotFound. A validation error carries exactly the violations `ValidateCreate` reports. A rejection or a failure leaves the table unchanged. On success it adds exactly one row, under an id greater than the high-water mark and than every stored id. The mark moves to that id, other rows are untouched, and the result carries the submitted content and flag. It fails with a storage failure only when the mark is the largest INTEGER. |
| `TodoTable.Update` | main.py:273-300 | Validation comes first, and a validation error carries exactly `TooShort("content")`. An unbindable id is a storage failure and an absent id is NotFound; both leave the table unchanged. On success the keys and the mark stay the same, every other row is untouched, and each field of the target row takes the supplied value or keeps its old one. The result is the row read back. |
| `TodoTable.Delete` | main.py:321-327 | Delete succeeds exactly when the id is stored. It then removes exactly that row, keeps every other row and the mark, and otherwise changes nothing (NotFound or storage failure). |
| `TodoTable.Step` | main.py:61-63 | Every request preserves the table invariant and never lowers the high-water mark. |
| `TodoTable.Run` | main.py:61-63 | Any sequence of requests, served one at a time, preserves the invariant and never lowers the high-water mark. |
| `TodoTable.CreateThenGet` | main.py:238-247 | A created todo reads back with exactly the submitted content and flag (flag defaulting to false), under an id of at least 1. |
| `TodoTable.RejectedCreatePersistsNothing` | main.py:78 | A create with missing or empty content is a validation error and persists no row. |
| `TodoTable.OrderedRowsAppend` | main.py:61 | A row added under the next AUTOINCREMENT key comes last in the ordered scan. |
| `TodoTable.ListAfterCreate` | main.py:180-183 | After a create, the listing is the old listing followed by the new todo, so the listing follows insertion order. |
| `TodoTable.DeleteTwice` | main.py:321-327 | After a delete the id reads as NotFound, and deleting it again is NotFound and changes nothing. |
| `TodoTable.EmptyUpdateIsGet` | main.py:292-300 | An update that supplies neither field leaves the table unchanged and answers exactly as Get does. |
| `TodoTable.UpdateThenGet` | main.py:297-300 | An updated todo reads back as the update returned it. |
| `TodoTable.IssuedIdNeverReturned` | main.py:61 | An id at or below the high-water mark is never handed out again by a create, whatever requests come in between. This covers every id ever issued, including deleted ones. |
| `Storage.Assign` | main.py:294-295 | `content = ?` replaces only the content, and `completed = ?` replaces only the flag. |
| `Storage.Database.constructor` | main.py:57-66 | The freshly created table is empty, with a high-water mark of 0 and no id issued. |
| `Storage.Connection.Open` | main.py:40-43 | A transaction starts from the committed table. |
| `Storage.Connection.SelectById` | main.py:209-210 | The lookup raises exactly for an unbindable id. Otherwise it returns the stored row when the id is present and nothing when it is absent. |
| `Storage.Connection.SelectAll` | main.py:181-182 | The ordered select returns the ordered scan of the transaction's table. |
| `Storage.Connection.Insert` | main.py:239-243 | The insert raises (SQLITE_FULL) exactly when the mark is the largest INTEGER, and then changes nothing. Otherwise `lastrowid` is one more than the mark and greater than every id ever issued. The row is stored under it and the mark moves to it. |
| `Storage.Connection.UpdateSet` | main.py:293-295 | The UPDATE raises exactly when the id parameter cannot be bound. Otherwise it applies the SET list to the matching row only, with `rowcount` 1 or 0. |
| `Storage.Connection.DeleteById` | main.py:322-323 | The DELETE raises exactly when the id cannot be bound. Otherwise it removes the row with that id, with `rowcount` 1 if it existed and 0 if not. |
| `Storage.Connection.Close` | main.py:42-47 | When the body returned normally, the database takes the transaction's table (commit). When it raised, the database is exactly as before (rollback). |
| `TodoApi.GetAllTodos` | main.py:173-183 | The handler returns exactly the `List` of the committed table. |
| `TodoApi.GetTodo` | main.py:195-216 | The handler returns exactly `Get` of the committed table, and it has no write access to the database. |
| `TodoApi.CreateTodo` | main.py:228-247 | The new table and the response are exactly those of `Create`. A new id is greater than every id ever issued, and a failed create issues none. |
| `TodoApi.BuildSetClause` | main.py:283-295 | The SET list has one entry per supplied field, content before completed, each bound to the supplied value. The parameter list is the SET list's values plus the id, so one entry longer; it is empty when nothing is supplied. |
| `TodoApi.SetClausePatches` | main.py:283-295 | Any SET list and parameters of that shape form a well-typed UPDATE that sets exactly the supplied fields. An empty SET list means nothing was supplied, so no UPDATE is sent. |
| `TodoApi.UpdateTodo` | main.py:259-300 | The new table and the response are exactly those of `Update`. No id is issued. |
| `TodoApi.DeleteTodo` | main.py:311-327 | The new table and the response are exactly those of `Delete`. NotFound (rowcount 0) rolls back. |

## Left out

- Opening and closing the database file, `DATABASE_FILE`, `row_factory` and `init_database`: these are file I/O. A `Database` starts as the empty table that `init_database` creates in a new file.
- SQL text: the SET list is a list of columns, each standing for a `col = ?` fragment. The `', '.join` and the f-string query are not built, and no SQL is parsed.
- FastAPI routing, status codes, `HTTPException` objects, the root endpoint and the MCP mounting: these are framework plumbing. Errors are `Response` values, and delete's empty 204 body is `Ok(())`.
- Pydantic beyond presence, null and `min_length=1`: type coercion, extra fields and the wording of error messages are not modelled. All violations are reported, content before completed.
- Storage failures other than the two named above (I/O errors, locks, a full disk) cannot be modelled without the SQL engine; no handler in the model raises them.
- Concurrency: the handlers are `async` and requests may overlap. The model serves requests one at a time and treats each handler as one transaction. sqlite3 starts its implicit transaction only at the first write, so concurrent last-write-wins behaviour is not captured.
- TodoApi.GetAllTodos: does not close its connection. A read-only transaction has nothing to commit, so its commit is a no-op and the handler is modelled without write access to the database. TodoApi.GetTodo is modelled the same way.

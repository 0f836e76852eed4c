/** The records of the todo service: the stored row, the response model, the two
    request bodies and the validation rules their schemas impose before any handler
    runs, and the conversion of a fetched row into a response record. */
module TodoSchema {

  datatype Option<T> = None | Some(value: T)

  /** A todo as the service returns it. */
  datatype Todo = Todo(todoId: int, content: string, completed: bool)

  /** The non-key columns of one row of the `todos` table. SQLite keeps the
      BOOLEAN column as an integer. */
  datatype Record = Record(content: string, completed: int)

  /** A row as a SELECT hands it back: the key column and the two others. */
  datatype Row = Row(todoId: int, content: string, completed: int)

  /** One field of a JSON request body: left out, sent as null, or sent with a value. */
  datatype Field<T> = Absent | Null | Given(value: T)

  /** The body of a create request and of an update request, before validation. */
  datatype CreateBody = CreateBody(content: Field<string>, completed: Field<bool>)
  datatype UpdateBody = UpdateBody(content: Field<string>, completed: Field<bool>)

  /** A validated create request: content is required, completed defaults to false. */
  datatype TodoCreate = TodoCreate(content: string, completed: bool)

  /** A validated update request: each field is optional; None means "leave as is". */
  datatype TodoUpdate = TodoUpdate(content: Option<string>, completed: Option<bool>)

  /** What schema validation reports about one field. */
  datatype Violation = Missing(field: string) | WrongType(field: string) | TooShort(field: string)

  datatype Checked<T> = Accepted(value: T) | Rejected(violations: seq<Violation>)

  /** The outcome of a handler: the value, or the error it raises. */
  datatype Response<T> =
    | Ok(value: T)
    | NotFound(todoId: int)
    | ValidationError(violations: seq<Violation>)
    | StorageFailure

  /** A required text field with `min_length=1`. */
  function RequiredText(name: string, f: Field<string>): seq<Violation>
  {
    match f
    case Absent => [Missing(name)]
    case Null => [WrongType(name)]
    case Given(s) => if |s| < 1 then [TooShort(name)] else []
  }

  /** An optional text field with `min_length=1`: null means "not supplied". */
  function OptionalText(name: string, f: Field<string>): seq<Violation>
  {
    if f.Given? && |f.value| < 1 then [TooShort(name)] else []
  }

  /** A boolean field with a default value: it may be left out, but not sent as null. */
  function DefaultedBool(name: string, f: Field<bool>): seq<Violation>
  {
    if f.Null? then [WrongType(name)] else []
  }

  /** The value of an optional field: left out and null both read as None. */
  function Supplied<T>(f: Field<T>): (r: Option<T>)
    ensures r.Some? <==> f.Given?
    ensures r.Some? ==> r.value == f.value
  {
    if f.Given? then Some(f.value) else None
  }

  /** Validation of a create body against the TodoCreate schema. */
  function ValidateCreate(b: CreateBody): (r: Checked<TodoCreate>)
    ensures r.Accepted? <==> b.content.Given? && b.content.value != [] && !b.completed.Null?
    ensures r.Accepted? ==> r.value.content == b.content.value
    ensures r.Accepted? ==> r.value.completed == (if b.completed.Given? then b.completed.value else false)
    ensures r.Rejected? ==> r.violations != []
    ensures r.Rejected? ==> (Missing("content") in r.violations <==> b.content.Absent?)
    ensures r.Rejected? ==> (TooShort("content") in r.violations <==> b.content == Given(""))
    ensures r.Rejected? ==> (WrongType("content") in r.violations <==> b.content.Null?)
    ensures r.Rejected? ==> (WrongType("completed") in r.violations <==> b.completed.Null?)
    ensures r.Rejected? ==> forall v :: v in r.violations ==>
      v in [Missing("content"), WrongType("content"), TooShort("content"), WrongType("completed")]
    // In field order: a fault of content comes before the fault of completed.
    ensures r.Rejected? ==> forall i, j :: 0 <= i < j < |r.violations| ==>
      r.violations[i].field == "content" && r.violations[j] == WrongType("completed")
  {
    var errors := RequiredText("content", b.content) + DefaultedBool("completed", b.completed);
    if errors == [] then
      Accepted(TodoCreate(b.content.value, if b.completed.Given? then b.completed.value else false))
    else
      Rejected(errors)
  }

  /** Validation of an update body against the TodoUpdate schema. */
  function ValidateUpdate(b: UpdateBody): (r: Checked<TodoUpdate>)
    ensures r.Accepted? <==> b.content != Given("")
    ensures r.Accepted? ==> r.value.content == Supplied(b.content)
    ensures r.Accepted? ==> r.value.completed == Supplied(b.completed)
    ensures r.Rejected? ==> r.violations == [TooShort("content")]
  {
    var errors := OptionalText("content", b.content);
    if errors == [] then Accepted(TodoUpdate(Supplied(b.content), Supplied(b.completed)))
    else Rejected(errors)
  }

  /** The value the sqlite3 adapter stores for a Python bool. */
  function BoolToSql(b: bool): (n: int)
    ensures n == 0 || n == 1
    ensures n != 0 <==> b
  {
    if b then 1 else 0
  }

  /** Converts a fetched row into a response record; the integer column is read
      back as a bool by truthiness. */
  function RowToTodo(row: Row): Todo
  {
    Todo(row.todoId, row.content, row.completed != 0)
  }

  /** Reading back a row written from a bool gives the same bool, content and id. */
  lemma RowToTodoReadsBack(id: int, content: string, completed: bool)
    ensures RowToTodo(Row(id, content, BoolToSql(completed))) == Todo(id, content, completed)
  {
  }
}

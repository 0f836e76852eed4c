/** The `todos` table as a value, and what each request handler does to it.

    The table is a map from `todo_id` to the other two columns, together with the
    high-water mark SQLite keeps for an AUTOINCREMENT key (the `seq` entry of
    `sqlite_sequence`): the largest id ever handed out, or 0. The functions
    List, Get, Create, Update and Delete give, for a table and a request, the
    table the handler's transaction leaves behind and the response it produces. */
module TodoTable {
  import opened TodoSchema

  /** The largest value of a SQLite INTEGER (a signed 64-bit integer). */
  const MaxRowId: int := 0x7FFF_FFFF_FFFF_FFFF
  const MinInt64: int := -0x8000_0000_0000_0000

  datatype Table = Table(rows: map<int, Record>, sequence: int)

  /** The table as the service first finds it. */
  const Empty: Table := Table(map[], 0)

  /** sqlite3 can bind a Python int as a statement parameter only when it fits in 64 bits. */
  predicate Bindable(id: int)
  {
    MinInt64 <= id <= MaxRowId
  }

  /** The AUTOINCREMENT bookkeeping: every key was handed out, so lies in 1..sequence. */
  predicate WellFormed(t: Table)
  {
    && 0 <= t.sequence <= MaxRowId
    && forall k :: k in t.rows ==> 1 <= k <= t.sequence
  }

  /** WellFormed, and every row holds non-empty content and a stored bool. */
  predicate Valid(t: Table)
  {
    && WellFormed(t)
    && forall k :: k in t.rows ==> t.rows[k].content != [] && t.rows[k].completed in {0, 1}
  }

  /** The row stored under `id`, as a SELECT returns it. */
  function Fetch(t: Table, id: int): Row
    requires id in t.rows
  {
    Row(id, t.rows[id].content, t.rows[id].completed)
  }

  /** The keys among `keys` that lie in lo..hi, in increasing order: a scan of the
      table's b-tree, which SQLite keeps ordered by rowid. This is a specification
      of the scan's result, not of its cost: it steps through every integer of
      lo..hi, so for a table it takes time in the high-water mark, where the b-tree
      walk takes time in the number of rows. */
  function Scan(keys: set<int>, lo: int, hi: int): (r: seq<int>)
    ensures forall k :: k in r <==> k in keys && lo <= k <= hi
    ensures forall i, j :: 0 <= i < j < |r| ==> r[i] < r[j]
    decreases hi - lo
  {
    if hi < lo then []
    else
      var below := Scan(keys, lo, hi - 1);
      assert forall i :: 0 <= i < |below| ==> below[i] in below;
      below + (if hi in keys then [hi] else [])
  }

  /** Two key sets that agree on lo..hi scan alike. */
  lemma {:induction false} ScanAgrees(a: set<int>, b: set<int>, lo: int, hi: int)
    requires forall k :: lo <= k <= hi ==> (k in a <==> k in b)
    ensures Scan(a, lo, hi) == Scan(b, lo, hi)
    decreases hi - lo
  {
    if lo <= hi {
      ScanAgrees(a, b, lo, hi - 1);
    }
  }

  /** `SELECT * FROM todos ORDER BY todo_id`. */
  function OrderedRows(t: Table): (r: seq<Row>)
    requires WellFormed(t)
    ensures forall i, j :: 0 <= i < j < |r| ==> r[i].todoId < r[j].todoId
    ensures forall i :: 0 <= i < |r| ==> r[i].todoId in t.rows && r[i] == Fetch(t, r[i].todoId)
    ensures forall id :: id in t.rows ==> exists i :: 0 <= i < |r| && r[i].todoId == id
    ensures t.rows == map[] ==> r == []
  {
    var ids := Scan(t.rows.Keys, 1, t.sequence);
    var r := seq(|ids|, i requires 0 <= i < |ids| => Fetch(t, ids[i]));
    assert forall i :: 0 <= i < |r| ==> r[i].todoId == ids[i];
    assert forall id :: id in t.rows ==> id in ids;
    assert |ids| > 0 ==> ids[0] in ids;
    r
  }

  /** List: every stored todo exactly once, by ascending id; an empty table lists as []. */
  function List(t: Table): (r: seq<Todo>)
    requires WellFormed(t)
    ensures forall i, j :: 0 <= i < j < |r| ==> r[i].todoId < r[j].todoId
    ensures forall i :: 0 <= i < |r| ==> r[i].todoId in t.rows && r[i] == RowToTodo(Fetch(t, r[i].todoId))
    ensures forall id :: id in t.rows ==> exists i :: 0 <= i < |r| && r[i].todoId == id
    ensures t.rows == map[] ==> r == []
  {
    var rows := OrderedRows(t);
    var r := ToTodos(rows);
    assert forall i :: 0 <= i < |r| ==> r[i].todoId == rows[i].todoId;
    r
  }

  /** `[row_to_todo(row) for row in rows]` */
  function ToTodos(rows: seq<Row>): (r: seq<Todo>)
    ensures |r| == |rows|
    ensures forall i :: 0 <= i < |r| ==> r[i] == RowToTodo(rows[i])
  {
    seq(|rows|, i requires 0 <= i < |rows| => RowToTodo(rows[i]))
  }

  lemma ToTodosAppend(rows: seq<Row>, row: Row)
    ensures ToTodos(rows + [row]) == ToTodos(rows) + [RowToTodo(row)]
  {
    assert forall i :: 0 <= i < |rows| ==> (rows + [row])[i] == rows[i];
  }

  /** Get: the stored todo, NotFound for an absent id, and a storage failure for an
      id sqlite3 cannot bind. */
  function Get(t: Table, id: int): (r: Response<Todo>)
    ensures r.Ok? || r.NotFound? || r.StorageFailure?
    ensures r.StorageFailure? <==> !Bindable(id)
    ensures r.Ok? <==> Bindable(id) && id in t.rows
    ensures r.NotFound? ==> r.todoId == id
    ensures r.Ok? ==> r.value.todoId == id && r.value.content == t.rows[id].content
    ensures r.Ok? ==> r.value.completed == (t.rows[id].completed != 0)
  {
    if !Bindable(id) then StorageFailure
    else if id in t.rows then Ok(RowToTodo(Fetch(t, id)))
    else NotFound(id)
  }

  /** Create: validation first; then an INSERT whose AUTOINCREMENT key is one more
      than the high-water mark, which fails (SQLITE_FULL) once the mark is the
      largest INTEGER; then the new row read back. */
  function Create(t: Table, body: CreateBody): (out: (Table, Response<Todo>))
    requires Valid(t)
    ensures Valid(out.0)
    ensures !out.1.Ok? ==> out.0 == t
    ensures out.1.Ok? || out.1.ValidationError? || out.1.StorageFailure?
    ensures out.1.ValidationError? <==> ValidateCreate(body).Rejected?
    ensures out.1.ValidationError? ==> out.1.violations == ValidateCreate(body).violations
    ensures out.1.StorageFailure? <==> ValidateCreate(body).Accepted? && t.sequence == MaxRowId
    ensures out.1.Ok? ==>
      var todo := out.1.value;
      && todo.todoId > t.sequence
      && (forall k :: k in t.rows ==> k < todo.todoId)
      && out.0.sequence == todo.todoId
      && out.0.rows.Keys == t.rows.Keys + {todo.todoId}
      && (forall k :: k in t.rows ==> out.0.rows[k] == t.rows[k])
      && todo.content == body.content.value
      && todo.completed == (body.completed.Given? && body.completed.value)
      && RowToTodo(Fetch(out.0, todo.todoId)) == todo
  {
    match ValidateCreate(body)
    case Rejected(v) => (t, ValidationError(v))
    case Accepted(c) =>
      if t.sequence == MaxRowId then (t, StorageFailure)
      else
        var id := t.sequence + 1;
        var t' := Table(t.rows[id := Record(c.content, BoolToSql(c.completed))], id);
        (t', Ok(RowToTodo(Fetch(t', id))))
  }

  /** The row an UPDATE leaves when it sets exactly the supplied fields. */
  function Patch(rec: Record, u: TodoUpdate): Record
  {
    Record(
      if u.content.Some? then u.content.value else rec.content,
      if u.completed.Some? then BoolToSql(u.completed.value) else rec.completed)
  }

  /** Update: validation first; then NotFound for an absent id; otherwise only the
      supplied fields of that one row change and the row is read back. */
  function Update(t: Table, id: int, body: UpdateBody): (out: (Table, Response<Todo>))
    requires Valid(t)
    ensures Valid(out.0)
    ensures !out.1.Ok? ==> out.0 == t
    ensures out.1.ValidationError? <==> body.content == Given("")
    ensures out.1.ValidationError? ==> out.1.violations == [TooShort("content")]
    ensures out.1.StorageFailure? <==> body.content != Given("") && !Bindable(id)
    ensures out.1.NotFound? <==> body.content != Given("") && Bindable(id) && id !in t.rows
    ensures out.1.NotFound? ==> out.1.todoId == id
    ensures out.1.Ok? ==>
      && id in t.rows
      && out.0.sequence == t.sequence
      && out.0.rows.Keys == t.rows.Keys
      && (forall k :: k in t.rows && k != id ==> out.0.rows[k] == t.rows[k])
      && out.0.rows[id].content == (if body.content.Given? then body.content.value else t.rows[id].content)
      && out.0.rows[id].completed ==
           (if body.completed.Given? then BoolToSql(body.completed.value) else t.rows[id].completed)
      && out.1.value == RowToTodo(Fetch(out.0, id))
  {
    match ValidateUpdate(body)
    case Rejected(v) => (t, ValidationError(v))
    case Accepted(u) =>
      if !Bindable(id) then (t, StorageFailure)
      else if id !in t.rows then (t, NotFound(id))
      else
        var t' := Table(t.rows[id := Patch(t.rows[id], u)], t.sequence);
        (t', Ok(RowToTodo(Fetch(t', id))))
  }

  /** Delete: removes exactly the row with that id; NotFound when no row matched. */
  function Delete(t: Table, id: int): (out: (Table, Response<()>))
    requires Valid(t)
    ensures Valid(out.0)
    ensures !out.1.Ok? ==> out.0 == t
    ensures out.1.Ok? || out.1.NotFound? || out.1.StorageFailure?
    ensures out.1.StorageFailure? <==> !Bindable(id)
    ensures out.1.Ok? <==> id in t.rows
    ensures out.1.NotFound? ==> out.1.todoId == id
    ensures out.1.Ok? ==>
      && out.0.sequence == t.sequence
      && out.0.rows.Keys == t.rows.Keys - {id}
      && (forall k :: k in out.0.rows ==> out.0.rows[k] == t.rows[k])
  {
    if !Bindable(id) then (t, StorageFailure)
    else if id in t.rows then (Table(t.rows - {id}, t.sequence), Ok(()))
    else (t, NotFound(id))
  }

  /** A request to the service, for reasoning about sequences of requests. */
  datatype Request =
    | ListAll
    | GetOne(id: int)
    | CreateOne(create: CreateBody)
    | UpdateOne(id: int, update: UpdateBody)
    | DeleteOne(id: int)

  /** The table after one request. */
  function Step(t: Table, req: Request): (t': Table)
    requires Valid(t)
    ensures Valid(t')
    ensures t'.sequence >= t.sequence
  {
    match req
    case ListAll => t
    case GetOne(_) => t
    case CreateOne(body) => Create(t, body).0
    case UpdateOne(id, body) => Update(t, id, body).0
    case DeleteOne(id) => Delete(t, id).0
  }

  /** The table after a sequence of requests, served one at a time. */
  function Run(t: Table, reqs: seq<Request>): (t': Table)
    requires Valid(t)
    ensures Valid(t')
    ensures t'.sequence >= t.sequence
    decreases |reqs|
  {
    if reqs == [] then t else Run(Step(t, reqs[0]), reqs[1..])
  }

  /** A created todo can be read back with exactly the submitted content and flag. */
  lemma CreateThenGet(t: Table, body: CreateBody, t': Table, todo: Todo)
    requires Valid(t) && Create(t, body) == (t', Ok(todo))
    ensures Get(t', todo.todoId) == Ok(todo)
    ensures todo == Todo(todo.todoId, body.content.value, body.completed.Given? && body.completed.value)
    ensures todo.todoId >= 1
  {
  }

  /** A rejected create leaves no row behind. */
  lemma RejectedCreatePersistsNothing(t: Table, body: CreateBody)
    requires Valid(t) && (body.content.Absent? || body.content == Given(""))
    ensures Create(t, body).1.ValidationError?
    ensures Create(t, body).0 == t
  {
  }

  /** Adding a row under the next AUTOINCREMENT key appends it to the ordered scan. */
  lemma OrderedRowsAppend(t: Table, rec: Record)
    requires WellFormed(t) && t.sequence < MaxRowId
    ensures var id := t.sequence + 1;
      OrderedRows(Table(t.rows[id := rec], id)) == OrderedRows(t) + [Row(id, rec.content, rec.completed)]
  {
    var id := t.sequence + 1;
    var t' := Table(t.rows[id := rec], id);
    var ids := Scan(t.rows.Keys, 1, t.sequence);
    ScanAgrees(t'.rows.Keys, t.rows.Keys, 1, t.sequence);
    assert Scan(t'.rows.Keys, 1, id) == ids + [id];
    var before, after := OrderedRows(t), OrderedRows(t');
    assert |after| == |before| + 1;
    forall i | 0 <= i < |after|
      ensures after[i] == (before + [Row(id, rec.content, rec.completed)])[i]
    {
      if i < |before| {
        assert ids[i] in t.rows;
      }
    }
  }

  /** A new todo is listed last: its id is larger than every id already stored. */
  lemma ListAfterCreate(t: Table, body: CreateBody, t': Table, todo: Todo)
    requires Valid(t) && Create(t, body) == (t', Ok(todo))
    ensures List(t') == List(t) + [todo]
  {
    var c := ValidateCreate(body).value;
    var rec := Record(c.content, BoolToSql(c.completed));
    assert t' == Table(t.rows[t.sequence + 1 := rec], t.sequence + 1);
    OrderedRowsAppend(t, rec);
    ToTodosAppend(OrderedRows(t), Row(t.sequence + 1, rec.content, rec.completed));
  }

  /** After a successful delete the id reads as NotFound, and deleting it again
      fails with NotFound and changes nothing. */
  lemma DeleteTwice(t: Table, id: int, t': Table)
    requires Valid(t) && Delete(t, id) == (t', Ok(()))
    ensures Get(t', id) == NotFound(id)
    ensures Delete(t', id) == (t', NotFound(id))
  {
  }

  /** An update that supplies neither field writes nothing and answers like Get. */
  lemma EmptyUpdateIsGet(t: Table, id: int, body: UpdateBody)
    requires Valid(t) && !body.content.Given? && !body.completed.Given?
    ensures Update(t, id, body) == (t, Get(t, id))
  {
    if Bindable(id) && id in t.rows {
      assert Patch(t.rows[id], TodoUpdate(None, None)) == t.rows[id];
      assert t.rows[id := t.rows[id]] == t.rows;
    }
  }

  /** An updated todo reads back as the update returned it. */
  lemma UpdateThenGet(t: Table, id: int, body: UpdateBody, t': Table, todo: Todo)
    requires Valid(t) && Update(t, id, body) == (t', Ok(todo))
    ensures Get(t', id) == Ok(todo)
  {
  }

  /** An id at or below the high-water mark (every id handed out so far, whether its
      row still exists or was deleted) is never handed out again, whatever requests
      come in between. */
  lemma IssuedIdNeverReturned(t: Table, reqs: seq<Request>, body: CreateBody, id: int)
    requires Valid(t) && id <= t.sequence
    ensures Create(Run(t, reqs), body).1.Ok? ==> Create(Run(t, reqs), body).1.value.todoId > id
  {
    // Run never lowers the mark, and Create hands out an id above the mark.
  }
}

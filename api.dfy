/** The request handlers of the todo service. Each one validates its body first
    (schema validation happens before the handler runs), then opens one connection,
    sends its statements, and leaves the connection's scope: normally, which commits,
    or by raising, which rolls back. Each is proved to do exactly what the
    specification function of the same operation in TodoTable says. */
module TodoApi {
  import opened TodoSchema
  import opened TodoTable
  import opened Storage

  /** `get_all_todos`. A read-only transaction has nothing to commit, so the
      connection is not closed explicitly here or in GetTodo. */
  method GetAllTodos(db: Database) returns (r: seq<Todo>)
    requires db.Valid()
    ensures r == List(db.State())
  {
    var conn := new Connection.Open(db);
    var rows := conn.SelectAll();
    r := ToTodos(rows);
  }

  /** `get_todo`. */
  method GetTodo(db: Database, id: int) returns (r: Response<Todo>)
    requires db.Valid()
    ensures r == Get(db.State(), id)
  {
    var conn := new Connection.Open(db);
    var found := conn.SelectById(id);
    if found.Raised? {
      r := StorageFailure;
    } else if found.value.None? {
      r := NotFound(id);
    } else {
      r := Ok(RowToTodo(found.value.value));
    }
  }

  /** `create_todo`: inserts, then reads the new row back by `lastrowid`. */
  method CreateTodo(db: Database, body: CreateBody) returns (r: Response<Todo>)
    requires db.Valid()
    modifies db
    ensures db.Valid()
    ensures (db.State(), r) == Create(old(db.State()), body)
    ensures r.Ok? ==> (forall id :: id in old(db.issued) ==> id < r.value.todoId)
    ensures r.Ok? ==> db.issued == old(db.issued) + {r.value.todoId}
    ensures !r.Ok? ==> db.issued == old(db.issued)
  {
    var checked := ValidateCreate(body);
    if checked.Rejected? {
      return ValidationError(checked.violations);
    }
    var todo := checked.value;
    var conn := new Connection.Open(db);
    var inserted := conn.Insert(todo.content, todo.completed);
    if inserted.Raised? {
      conn.Close(true);
      return StorageFailure;
    }
    var fetched := conn.SelectById(inserted.value);
    assert fetched.Done? && fetched.value.Some?;
    r := Ok(RowToTodo(fetched.value.value));
    conn.Close(false);
  }

  /** How many fields an update supplies. */
  function SuppliedCount(u: TodoUpdate): nat
  {
    (if u.content.Some? then 1 else 0) + (if u.completed.Some? then 1 else 0)
  }

  /** What the SET list and the parameter list built for an update must be: one
      `col = ?` entry per supplied field, content before completed, each bound to
      the supplied value, and the id appended when there is anything to set. */
  predicate SetClauseFor(u: TodoUpdate, id: int, updates: seq<Column>, params: seq<SqlValue>)
  {
    && (ContentCol in updates <==> u.content.Some?)
    && (CompletedCol in updates <==> u.completed.Some?)
    && |updates| == SuppliedCount(u)
    && (forall i, j :: 0 <= i < j < |updates| ==> updates[i] == ContentCol && updates[j] == CompletedCol)
    && |params| == (if updates == [] then 0 else |updates| + 1)
    && (forall i :: 0 <= i < |updates| && i < |params| ==>
          && (updates[i] == ContentCol && u.content.Some? ==> params[i] == Text(u.content.value))
          && (updates[i] == CompletedCol && u.completed.Some? ==>
                params[i] == Integer(BoolToSql(u.completed.value))))
    && (updates != [] ==> params[|updates|] == Integer(id))
  }

  /** The dynamic SET-clause builder of `update_todo`. */
  method BuildSetClause(u: TodoUpdate, id: int) returns (updates: seq<Column>, params: seq<SqlValue>)
    ensures SetClauseFor(u, id, updates, params)
  {
    updates, params := [], [];
    if u.content.Some? {
      updates := updates + [ContentCol];
      params := params + [Text(u.content.value)];
    }
    if u.completed.Some? {
      updates := updates + [CompletedCol];
      params := params + [Integer(BoolToSql(u.completed.value))];
    }
    if updates != [] {
      params := params + [Integer(id)];
    }
  }

  /** Whatever SET list and parameters meet SetClauseFor, the UPDATE they make is
      well formed and sets exactly the supplied fields; when nothing is supplied
      there is no UPDATE to send. */
  lemma SetClausePatches(u: TodoUpdate, id: int, updates: seq<Column>, params: seq<SqlValue>, rec: Record)
    requires SetClauseFor(u, id, updates, params)
    ensures updates == [] <==> u.content.None? && u.completed.None?
    ensures updates != [] ==>
      && |params| == |updates| + 1
      && params[|updates|] == Integer(id)
      && (forall i :: 0 <= i < |updates| ==> Fits(updates[i], params[i]))
      && AssignAll(rec, updates, params[..|updates|]) == Patch(rec, u)
  {
    var vals := params[..|updates|];
    if |updates| == 1 {
      assert updates[0] in updates;
      assert AssignAll(rec, updates, vals) == AssignAll(Assign(rec, updates[0], vals[0]), [], []);
    } else if |updates| == 2 {
      assert updates[1] == CompletedCol && updates[0] == ContentCol;
      var first := Assign(rec, ContentCol, vals[0]);
      assert updates[1..] == [CompletedCol] && vals[1..] == [vals[1]];
      assert AssignAll(rec, updates, vals) == AssignAll(first, [CompletedCol], [vals[1]]);
      assert AssignAll(first, [CompletedCol], [vals[1]]) == Assign(first, CompletedCol, vals[1]);
    }
  }

  /** `update_todo`: checks the row exists, builds the SET list, sends the UPDATE
      only when there is something to set, then reads the row back. */
  method UpdateTodo(db: Database, id: int, body: UpdateBody) returns (r: Response<Todo>)
    requires db.Valid()
    modifies db
    ensures db.Valid()
    ensures (db.State(), r) == Update(old(db.State()), id, body)
    ensures db.issued == old(db.issued)
  {
    var checked := ValidateUpdate(body);
    if checked.Rejected? {
      return ValidationError(checked.violations);
    }
    var u := checked.value;
    var conn := new Connection.Open(db);
    var existing := conn.SelectById(id);
    if existing.Raised? {
      conn.Close(true);
      return StorageFailure;
    }
    if existing.value.None? {
      conn.Close(true);
      return NotFound(id);
    }
    var updates, params := BuildSetClause(u, id);
    SetClausePatches(u, id, updates, params, conn.rows[id]);
    if updates != [] {
      var rowcount := conn.UpdateSet(updates, params);
    } else {
      assert conn.rows == conn.rows[id := Patch(conn.rows[id], u)];
    }
    var fetched := conn.SelectById(id);
    assert fetched.Done? && fetched.value.Some?;
    r := Ok(RowToTodo(fetched.value.value));
    conn.Close(false);
  }

  /** `delete_todo`: a DELETE that matched no row raises NotFound, which rolls back. */
  method DeleteTodo(db: Database, id: int) returns (r: Response<()>)
    requires db.Valid()
    modifies db
    ensures db.Valid()
    ensures (db.State(), r) == Delete(old(db.State()), id)
    ensures db.issued == old(db.issued)
  {
    var conn := new Connection.Open(db);
    var deleted := conn.DeleteById(id);
    if deleted.Raised? {
      conn.Close(true);
      return StorageFailure;
    }
    if deleted.value == 0 {
      conn.Close(true);
      return NotFound(id);
    }
    r := Ok(());
    conn.Close(false);
  }

  /** A client of the handlers: what a caller can conclude from the handlers' contracts
      and the TodoTable functions they name. */
  method Session()
  {
    var db := new Database();
    var created := CreateTodo(db, CreateBody(Given("buy milk"), Absent));
    assert created == Ok(Todo(1, "buy milk", false));
    var got := GetTodo(db, 1);
    assert got == created;
    var updated := UpdateTodo(db, 1, UpdateBody(Absent, Given(true)));
    assert updated == Ok(Todo(1, "buy milk", true));
    var listed := GetAllTodos(db);
    assert listed == [Todo(1, "buy milk", true)];
    var deleted := DeleteTodo(db, 1);
    assert deleted == Ok(());
    got := GetTodo(db, 1);
    assert got == NotFound(1);
    deleted := DeleteTodo(db, 1);
    assert deleted == NotFound(1);
    var rejected := CreateTodo(db, CreateBody(Given(""), Absent));
    assert rejected.ValidationError? && db.rows == map[];
    created := CreateTodo(db, CreateBody(Given("walk dog"), Given(true)));
    assert created == Ok(Todo(2, "walk dog", true));
  }
}

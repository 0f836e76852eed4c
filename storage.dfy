/** The SQLite side of the service: the database file's `todos` table, and a
    connection that runs one transaction against it.

    A connection works on its own copy of the table. Closing it either commits that
    copy to the database (the handler returned normally) or rolls back to the
    database's state (the handler raised), as the scoped connection of the service
    does. The statements the handlers send are modelled by what they do to the
    table, not by their SQL text. */
module Storage {
  import opened TodoSchema
  import opened TodoTable

  /** A column an UPDATE can set. */
  datatype Column = ContentCol | CompletedCol

  /** A value bound to a `?` placeholder. */
  datatype SqlValue = Integer(i: int) | Text(s: string)

  /** What executing one statement gives back: its result, or an exception from sqlite3. */
  datatype Exec<T> = Done(value: T) | Raised

  /** The column affinities the handlers respect: text into `content`, an integer into `completed`. */
  predicate Fits(col: Column, v: SqlValue)
  {
    match col
    case ContentCol => v.Text?
    case CompletedCol => v.Integer?
  }

  /** `col = ?` applied to one row, with `v` bound to the placeholder. */
  function Assign(rec: Record, col: Column, v: SqlValue): (r: Record)
    requires Fits(col, v)
    ensures col == ContentCol ==> r == Record(v.s, rec.completed)
    ensures col == CompletedCol ==> r == Record(rec.content, v.i)
  {
    match col
    case ContentCol => rec.(content := v.s)
    case CompletedCol => rec.(completed := v.i)
  }

  /** `SET c1 = ?, c2 = ?, ...` applied to one row, the values bound in order. */
  function AssignAll(rec: Record, cols: seq<Column>, vals: seq<SqlValue>): Record
    requires |vals| == |cols|
    requires forall i :: 0 <= i < |cols| ==> Fits(cols[i], vals[i])
    decreases |cols|
  {
    if cols == [] then rec else AssignAll(Assign(rec, cols[0], vals[0]), cols[1..], vals[1..])
  }

  /** The database file: the committed `todos` table and its AUTOINCREMENT mark. */
  class Database {
    var rows: map<int, Record>
    var sequence: int
    /** Every id an INSERT has ever been given. */
    ghost var issued: set<int>

    ghost predicate Valid()
      reads this
    {
      && TodoTable.Valid(State())
      && rows.Keys <= issued
      && forall id :: id in issued ==> 1 <= id <= sequence
    }

    function State(): Table
      reads this
    {
      Table(rows, sequence)
    }

    /** A fresh database file whose table has just been created. */
    constructor ()
      ensures Valid() && State() == Empty && issued == {}
    {
      rows, sequence, issued := map[], 0, {};
    }
  }

  /** An open connection with a transaction in progress. */
  class Connection {
    const db: Database
    /** The table as this transaction sees it. */
    var rows: map<int, Record>
    var sequence: int
    ghost var issued: set<int>

    ghost predicate Valid()
      reads this
    {
      && WellFormed(Working())
      && rows.Keys <= issued
      && forall id :: id in issued ==> 1 <= id <= sequence
    }

    function Working(): Table
      reads this
    {
      Table(rows, sequence)
    }

    /** Opens a connection to `db`; the transaction starts from its committed state. */
    constructor Open(db: Database)
      requires db.Valid()
      ensures this.db == db && Valid()
      ensures Working() == db.State() && issued == db.issued
    {
      this.db := db;
      rows, sequence, issued := db.rows, db.sequence, db.issued;
    }

    /** `SELECT * FROM todos WHERE todo_id = ?` followed by `fetchone()`. */
    method SelectById(id: int) returns (r: Exec<Option<Row>>)
      ensures r.Raised? <==> !Bindable(id)
      ensures r.Done? ==> (r.value.Some? <==> id in rows)
      ensures r.Done? && r.value.Some? ==> id in rows && r.value.value == Fetch(Working(), id)
    {
      if !Bindable(id) {
        r := Raised;
      } else if id in rows {
        r := Done(Some(Fetch(Working(), id)));
      } else {
        r := Done(None);
      }
    }

    /** `SELECT * FROM todos ORDER BY todo_id` followed by `fetchall()`. */
    method SelectAll() returns (r: seq<Row>)
      requires Valid()
      ensures r == OrderedRows(Working())
    {
      r := OrderedRows(Working());
    }

    /** `INSERT INTO todos (content, completed) VALUES (?, ?)`; the result is `lastrowid`.
        The AUTOINCREMENT key is one more than the largest id ever used; once that
        would pass the largest INTEGER the statement fails (SQLITE_FULL). */
    method Insert(content: string, completed: bool) returns (r: Exec<int>)
      requires Valid()
      modifies this
      ensures Valid()
      ensures r.Raised? <==> old(sequence) == MaxRowId
      ensures r.Raised? ==> rows == old(rows) && sequence == old(sequence) && issued == old(issued)
      ensures r.Done? ==>
        && r.value == old(sequence) + 1
        && (forall id :: id in old(issued) ==> id < r.value)
        && sequence == r.value
        && rows == old(rows)[r.value := Record(content, BoolToSql(completed))]
        && issued == old(issued) + {r.value}
    {
      if sequence == MaxRowId {
        r := Raised;
      } else {
        var id := sequence + 1;
        rows := rows[id := Record(content, BoolToSql(completed))];
        sequence := id;
        issued := issued + {id};
        r := Done(id);
      }
    }

    /** `UPDATE todos SET <updates> WHERE todo_id = ?` with `params` bound in order
        (the last one is the id); the result is `rowcount`. */
    method UpdateSet(updates: seq<Column>, params: seq<SqlValue>) returns (r: Exec<nat>)
      requires Valid()
      requires |params| == |updates| + 1 && params[|updates|].Integer?
      requires forall i :: 0 <= i < |updates| ==> Fits(updates[i], params[i])
      modifies this
      ensures Valid() && sequence == old(sequence) && issued == old(issued)
      ensures r.Raised? <==> !Bindable(params[|updates|].i)
      ensures r.Raised? ==> rows == old(rows)
      ensures r.Done? ==>
        var id := params[|updates|].i;
        && r.value == (if id in old(rows) then 1 else 0)
        && rows == if id in old(rows) then old(rows)[id := AssignAll(old(rows)[id], updates, params[..|updates|])]
                   else old(rows)
    {
      var id := params[|updates|].i;
      if !Bindable(id) {
        r := Raised;
      } else if id in rows {
        rows := rows[id := AssignAll(rows[id], updates, params[..|updates|])];
        r := Done(1);
      } else {
        r := Done(0);
      }
    }

    /** `DELETE FROM todos WHERE todo_id = ?`; the result is `rowcount`. */
    method DeleteById(id: int) returns (r: Exec<nat>)
      requires Valid()
      modifies this
      ensures Valid() && sequence == old(sequence) && issued == old(issued)
      ensures r.Raised? <==> !Bindable(id)
      ensures r.Raised? ==> rows == old(rows)
      ensures r.Done? ==> r.value == (if id in old(rows) then 1 else 0) && rows == old(rows) - {id}
    {
      if !Bindable(id) {
        r := Raised;
      } else {
        r := Done(if id in rows then 1 else 0);
        rows := rows - {id};
      }
    }

    /** Leaves the scope of the connection: commits the transaction when the body
        returned normally, rolls it back when the body raised. */
    method Close(raised: bool)
      requires Valid() && db.Valid()
      requires !raised ==> TodoTable.Valid(Working())
      modifies this, db
      ensures db.Valid()
      ensures raised ==> db.State() == old(db.State()) && db.issued == old(db.issued)
      ensures !raised ==> db.State() == old(Working()) && db.issued == old(issued)
    {
      if raised {
        rows, sequence, issued := db.rows, db.sequence, db.issued;
      } else {
        db.rows, db.sequence, db.issued := rows, sequence, issued;
      }
    }
  }
}

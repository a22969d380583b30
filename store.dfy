/** An abstract stand-in for the parts of ActiveRecord that the scope helpers use:
    a table of rows keyed by primary key, a scope (equality filters), and the
    record operations `first`, `new`, `attributes=` and `save`.
    Rows are plain attribute maps; the primary key is kept beside them. */
module Store {

  type Field = string
  type Value = string

  /** Attribute name to value. A field absent from the map is NULL. */
  type Fields = map<Field, Value>

  datatype Option<+T> = None | Some(value: T)

  /** An in-memory model object. `id` is None while the record is new
      (not yet inserted) and Some(key) once it is persisted. */
  datatype Record = Record(id: Option<nat>, fields: Fields) {
    predicate Persisted() { id.Some? }
  }

  /** What the model class knows about itself: its table's columns, the
      attribute accessors that live only in memory (`attr_accessor`), and
      its validations, which are left abstract. */
  datatype Schema = Schema(columns: set<Field>, accessors: set<Field>, validates: Fields -> bool) {
    /** The attribute names that `new` and `attributes=` accept. */
    function Known(): set<Field> { columns + accessors }
  }

  /** The stored table: rows by primary key, and the key the next insert gets
      (an integer primary key is one more than the largest key so far). */
  datatype Db = Db(rows: map<nat, Fields>, nextId: nat)

  /** An empty table; the first key handed out is 1. */
  const Empty: Db := Db(map[], 1)

  /** Every key lies in [1, nextId) and every row holds table columns only. */
  predicate WellFormed(db: Db, schema: Schema) {
    1 <= db.nextId &&
    forall id | id in db.rows :: 1 <= id < db.nextId && db.rows[id].Keys <= schema.columns
  }

  /** A row satisfies a scope when it holds every filtered field with the filtered value. */
  predicate Matches(row: Fields, scope: Fields) {
    forall f | f in scope :: f in row && row[f] == scope[f]
  }

  /** The lowest key below `n` whose row matches the scope. */
  function FirstBelow(rows: map<nat, Fields>, scope: Fields, n: nat): (r: Option<nat>)
    ensures r.Some? ==> r.value < n && r.value in rows && Matches(rows[r.value], scope)
    ensures r.Some? ==> forall id: nat | id < r.value && id in rows :: !Matches(rows[id], scope)
    ensures r.None? ==> forall id: nat | id < n && id in rows :: !Matches(rows[id], scope)
    decreases n
  {
    if n == 0 then None
    else
      var below := FirstBelow(rows, scope, n - 1);
      if below.Some? then below
      else if n - 1 in rows && Matches(rows[n - 1], scope) then Some(n - 1)
      else None
  }

  /** `first` on a scoped relation: the matching row with the lowest primary key. */
  function First(db: Db, scope: Fields): (r: Option<nat>)
    ensures r.Some? ==> r.value in db.rows && Matches(db.rows[r.value], scope)
    ensures r.Some? ==> forall id: nat | id < r.value && id in db.rows :: !Matches(db.rows[id], scope)
    ensures r.None? ==> forall id: nat | id < db.nextId && id in db.rows :: !Matches(db.rows[id], scope)
  {
    FirstBelow(db.rows, scope, db.nextId)
  }

  /** The persisted record that `first` materialises for a stored row. */
  function Load(db: Db, id: nat): (r: Record)
    requires id in db.rows
    ensures r.Persisted() && r.id.value == id && r.fields == db.rows[id]
  {
    Record(Some(id), db.rows[id])
  }

  /** Attributes of a record built by `new` on a scoped relation: the scope's
      values, then the supplied attributes, which win where both name a field. */
  function New(scope: Fields, attrs: Fields): (f: Fields)
    ensures f.Keys == scope.Keys + attrs.Keys
    ensures forall k | k in attrs :: f[k] == attrs[k]
    ensures forall k | k in scope && k !in attrs :: f[k] == scope[k]
  {
    scope + attrs
  }

  /** `attributes=`: overwrites the named fields and leaves the rest. */
  function Assign(r: Record, attrs: Fields): (a: Record)
    ensures a.id == r.id
    ensures a.fields.Keys == r.fields.Keys + attrs.Keys
    ensures forall k | k in attrs :: a.fields[k] == attrs[k]
    ensures forall k | k in r.fields && k !in attrs :: a.fields[k] == r.fields[k]
  {
    Record(r.id, r.fields + attrs)
  }

  /** The row written for a record: its column attributes; accessor values stay in memory. */
  function Stored(schema: Schema, fields: Fields): (row: Fields)
    ensures row.Keys == fields.Keys * schema.columns
    ensures forall k | k in row :: row[k] == fields[k]
  {
    map k | k in fields && k in schema.columns :: fields[k]
  }

  /** What `save` leaves behind: whether it succeeded, the record, the table. */
  datatype Saved = Saved(ok: bool, record: Record, db: Db)

  /** `save`: an invalid record is neither written nor changed; a valid new
      record is inserted under the next key, a valid persisted one is written
      over its row (an update of a row that has gone matches nothing). */
  function Persist(db: Db, schema: Schema, r: Record): (s: Saved)
    requires WellFormed(db, schema)
    ensures WellFormed(s.db, schema)
    ensures s.ok == schema.validates(r.fields)
    ensures !s.ok ==> s.record == r && s.db == db
    ensures s.ok ==> s.record.Persisted() && s.record.fields == r.fields
    ensures s.ok && !r.Persisted() ==>
              s.record.id == Some(db.nextId) && db.nextId !in db.rows &&
              s.db == Db(db.rows[db.nextId := Stored(schema, r.fields)], db.nextId + 1)
    ensures s.ok && r.Persisted() ==>
              s.record == r && s.db.nextId == db.nextId &&
              s.db.rows == if r.id.value in db.rows then db.rows[r.id.value := Stored(schema, r.fields)] else db.rows
  {
    if !schema.validates(r.fields) then Saved(false, r, db)
    else match r.id
      case None =>
        Saved(true, Record(Some(db.nextId), r.fields),
              Db(db.rows[db.nextId := Stored(schema, r.fields)], db.nextId + 1))
      case Some(id) =>
        if id in db.rows then Saved(true, r, Db(db.rows[id := Stored(schema, r.fields)], db.nextId))
        else Saved(true, r, db)
  }

  /** Writing a stored row back unchanged leaves the table as it was. */
  lemma StoredRowIsFixed(db: Db, schema: Schema, id: nat)
    requires WellFormed(db, schema) && id in db.rows
    ensures Stored(schema, db.rows[id]) == db.rows[id]
    ensures db.rows[id := Stored(schema, db.rows[id])] == db.rows
  {
  }

  /** After inserting a matching row into a table where nothing matched,
      `first` finds exactly the inserted row. */
  lemma FirstAfterInsert(db: Db, scope: Fields, row: Fields)
    requires First(db, scope).None? && db.nextId !in db.rows
    requires Matches(row, scope)
    ensures First(Db(db.rows[db.nextId := row], db.nextId + 1), scope) == Some(db.nextId)
  {
  }
}

/** A stored table of one model class, with the public entry points of
    FindOrCreateOnScopes as methods. A scope is passed as the equality filters
    of the relation the Ruby methods are called on. Each method is proved to
    leave the table, and to return the outcome, that the functions in Scopes
    prescribe. */
module Tables {
  import opened Store
  import opened Scopes
  import ScopeProperties

  class Table {
    const schema: Schema
    var rows: map<nat, Fields>
    var nextId: nat

    /** The table's contents as a value. */
    function Snapshot(): Db
      reads this
    {
      Db(rows, nextId)
    }

    ghost predicate Valid()
      reads this
    {
      WellFormed(Snapshot(), schema)
    }

    constructor (schema: Schema)
      ensures Valid() && this.schema == schema && Snapshot() == Empty
    {
      this.schema := schema;
      rows := map[];
      nextId := 1;
    }

    /** `save`: runs the validations, then inserts a new record under the next
        key or writes a persisted one over its row. */
    method Save(r: Record) returns (ok: bool, saved: Record)
      requires Valid()
      modifies this
      ensures Valid()
      ensures Saved(ok, saved, Snapshot()) == Persist(old(Snapshot()), schema, r)
    {
      ok := schema.validates(r.fields);
      saved := r;
      if !ok {
        return;
      }
      match r.id {
        case None =>
          rows := rows[nextId := Stored(schema, r.fields)];
          saved := Record(Some(nextId), r.fields);
          nextId := nextId + 1;
        case Some(id) =>
          if id in rows {
            rows := rows[id := Stored(schema, r.fields)];
          }
      }
    }

    /** `record.send(meth) if meth`. */
    method Send(r: Record, mode: SaveMode) returns (out: Outcome)
      requires Valid()
      modifies this
      ensures Valid()
      ensures Step(out, Snapshot()) == Scopes.Send(old(Snapshot()), schema, r, mode)
    {
      match mode {
        case NoSave =>
          out := Returned(r);
        case Save =>
          var _, saved := Save(r);
          out := Returned(saved);
        case SaveBang =>
          var ok, saved := Save(r);
          out := if ok then Returned(saved) else Raised(RecordInvalid);
      }
    }

    /** Undoes everything since the transaction began. */
    method Rollback(to: Db)
      modifies this
      ensures Snapshot() == to
    {
      rows, nextId := to.rows, to.nextId;
    }

    /** The block passed to `transaction` in `find_or_initialize_and_do`. */
    method FindOrInitializeAttempt(scope: Fields, mode: SaveMode, attrs: Fields, block: Block)
      returns (out: Outcome)
      requires Valid()
      modifies this
      ensures Valid()
      ensures Step(out, Snapshot()) == Scopes.FindOrInitializeAttempt(old(Snapshot()), schema, scope, mode, attrs, block)
    {
      if !(scope.Keys <= schema.columns) {
        return Raised(StatementInvalid);
      }
      var record: Record;
      var found := First(Snapshot(), scope);
      if found.Some? {
        record := Load(Snapshot(), found.value);
      } else {
        if !(attrs.Keys <= schema.Known()) {
          return Raised(UnknownAttribute);
        }
        record := Record(None, New(scope, attrs));
      }
      record := Yield(record, block);
      out := Send(record, mode);
    }

    /** The block passed to `transaction` in `create_or_update_and_do`. */
    method CreateOrUpdateAttempt(scope: Fields, mode: SaveMode, attrs: Fields, block: Block)
      returns (out: Outcome)
      requires Valid()
      modifies this
      ensures Valid()
      ensures Step(out, Snapshot()) == Scopes.CreateOrUpdateAttempt(old(Snapshot()), schema, scope, mode, attrs, block)
    {
      if !(scope.Keys <= schema.columns) {
        return Raised(StatementInvalid);
      }
      var record: Record;
      var found := First(Snapshot(), scope);
      if found.Some? {
        record := Load(Snapshot(), found.value);
      } else {
        record := Record(None, New(scope, map[]));
      }
      if !(attrs.Keys <= schema.Known()) {
        return Raised(UnknownAttribute);
      }
      record := Assign(record, attrs);
      record := Yield(record, block);
      out := Send(record, mode);
    }

    /** `find_or_initialize_and_do`: the attempt inside a transaction, rolled
        back when it raises. */
    method FindOrInitializeAndDo(scope: Fields, mode: SaveMode, attrs: Fields, block: Block)
      returns (out: Outcome)
      requires Valid()
      modifies this
      ensures Valid()
      ensures Step(out, Snapshot()) == Scopes.FindOrInitializeAndDo(old(Snapshot()), schema, scope, mode, attrs, block)
      ensures out.Raised? ==> Snapshot() == old(Snapshot())
    {
      var before := Snapshot();
      out := FindOrInitializeAttempt(scope, mode, attrs, block);
      if out.Raised? {
        Rollback(before);
      }
    }

    /** `create_or_update_and_do`: the attempt inside a transaction, rolled
        back when it raises. */
    method CreateOrUpdateAndDo(scope: Fields, mode: SaveMode, attrs: Fields, block: Block)
      returns (out: Outcome)
      requires Valid()
      modifies this
      ensures Valid()
      ensures Step(out, Snapshot()) == Scopes.CreateOrUpdateAndDo(old(Snapshot()), schema, scope, mode, attrs, block)
      ensures out.Raised? ==> Snapshot() == old(Snapshot())
    {
      var before := Snapshot();
      out := CreateOrUpdateAttempt(scope, mode, attrs, block);
      if out.Raised? {
        Rollback(before);
      }
    }

    /** `find_or_create`: finds the first match or builds one, and calls `save`. */
    method FindOrCreate(scope: Fields, attrs: Fields, block: Block) returns (out: Outcome)
      requires Valid()
      modifies this
      ensures Valid()
      ensures Step(out, Snapshot()) == Scopes.FindOrInitializeAndDo(old(Snapshot()), schema, scope, SaveMode.Save, attrs, block)
      ensures out.Raised? ==> out.error != RecordInvalid && Snapshot() == old(Snapshot())
    {
      out := FindOrInitializeAndDo(scope, SaveMode.Save, attrs, block);
    }

    /** `find_or_create!`: as `find_or_create`, with `save!`. */
    method FindOrCreateBang(scope: Fields, attrs: Fields, block: Block) returns (out: Outcome)
      requires Valid()
      modifies this
      ensures Valid()
      ensures Step(out, Snapshot()) == Scopes.FindOrInitializeAndDo(old(Snapshot()), schema, scope, SaveBang, attrs, block)
      ensures out.Raised? ==> Snapshot() == old(Snapshot())
    {
      out := FindOrInitializeAndDo(scope, SaveBang, attrs, block);
    }

    /** `find_or_initialize`: as `find_or_create`, without saving; the table is untouched. */
    method FindOrInitialize(scope: Fields, attrs: Fields, block: Block) returns (out: Outcome)
      requires Valid()
      modifies this
      ensures Valid()
      ensures Step(out, Snapshot()) == Scopes.FindOrInitializeAndDo(old(Snapshot()), schema, scope, NoSave, attrs, block)
      ensures Snapshot() == old(Snapshot())
    {
      ScopeProperties.NoSaveKeepsTable(Snapshot(), schema, scope, attrs, block);
      out := FindOrInitializeAndDo(scope, NoSave, attrs, block);
    }

    /** `create_or_update`: finds the first match or builds one, assigns the
        attributes, and calls `save`. */
    method CreateOrUpdate(scope: Fields, attrs: Fields, block: Block) returns (out: Outcome)
      requires Valid()
      modifies this
      ensures Valid()
      ensures Step(out, Snapshot()) == Scopes.CreateOrUpdateAndDo(old(Snapshot()), schema, scope, SaveMode.Save, attrs, block)
      ensures out.Raised? ==> out.error != RecordInvalid && Snapshot() == old(Snapshot())
    {
      out := CreateOrUpdateAndDo(scope, SaveMode.Save, attrs, block);
    }

    /** `create_or_update!`: as `create_or_update`, with `save!`. */
    method CreateOrUpdateBang(scope: Fields, attrs: Fields, block: Block) returns (out: Outcome)
      requires Valid()
      modifies this
      ensures Valid()
      ensures Step(out, Snapshot()) == Scopes.CreateOrUpdateAndDo(old(Snapshot()), schema, scope, SaveBang, attrs, block)
      ensures out.Raised? ==> Snapshot() == old(Snapshot())
    {
      out := CreateOrUpdateAndDo(scope, SaveBang, attrs, block);
    }

    /** `initialize_or_update`: as `create_or_update`, without saving; the table is untouched. */
    method InitializeOrUpdate(scope: Fields, attrs: Fields, block: Block) returns (out: Outcome)
      requires Valid()
      modifies this
      ensures Valid()
      ensures Step(out, Snapshot()) == Scopes.CreateOrUpdateAndDo(old(Snapshot()), schema, scope, NoSave, attrs, block)
      ensures Snapshot() == old(Snapshot())
    {
      ScopeProperties.NoSaveKeepsTable(Snapshot(), schema, scope, attrs, block);
      out := CreateOrUpdateAndDo(scope, NoSave, attrs, block);
    }
  }
}

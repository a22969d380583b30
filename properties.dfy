/** What the two helpers of FindOrCreateOnScopes promise their callers, proved
    about the functions that state their meaning. */
module ScopeProperties {
  import opened Store
  import opened Scopes

  /** The supplied attributes do not contradict the scope on a field both name. */
  predicate AgreesWith(attrs: Fields, scope: Fields) {
    forall k | k in attrs && k in scope :: attrs[k] == scope[k]
  }

  // ---------------------------------------------------------------------------
  // find_or_create, find_or_create!, find_or_initialize

  /** With a match, the find-or-create family works on the matched row: the
      record it returns is that row after the block, no row is added, and the
      only way it raises is `save!` on that record being invalid. A saving mode
      that finds the block's result valid writes it over the matched row; in
      every other case the table is left as it was. */
  lemma FindReturnsMatch(db: Db, schema: Schema, scope: Fields, mode: SaveMode, attrs: Fields, block: Block)
    requires WellFormed(db, schema) && scope.Keys <= schema.columns
    requires First(db, scope).Some?
    ensures var s := FindOrInitializeAndDo(db, schema, scope, mode, attrs, block);
            var found := Load(db, First(db, scope).value);
            (s.outcome.Returned? ==> s.outcome.record == Yield(found, block)) &&
            (s.outcome.Raised? <==> mode == SaveBang && !schema.validates(Yield(found, block).fields)) &&
            s.db.rows.Keys == db.rows.Keys && s.db.nextId == db.nextId &&
            var changed := Yield(found, block);
            (mode != NoSave && schema.validates(changed.fields) ==>
               s.db == Db(db.rows[found.id.value := Stored(schema, changed.fields)], db.nextId)) &&
            (!(mode != NoSave && schema.validates(changed.fields)) ==> s.db == db)
  {
  }

  /** With a match, the creation attributes are never used: `new(*args)` is not evaluated. */
  lemma FindIgnoresAttrsOnMatch(db: Db, schema: Schema, scope: Fields, mode: SaveMode,
                                attrs1: Fields, attrs2: Fields, block: Block)
    requires WellFormed(db, schema)
    requires First(db, scope).Some?
    ensures FindOrInitializeAndDo(db, schema, scope, mode, attrs1, block)
         == FindOrInitializeAndDo(db, schema, scope, mode, attrs2, block)
  {
  }

  /** With a match and no block, the stored table is left exactly as it was
      and the matched row is returned as stored (unless `save!` finds it invalid). */
  lemma FindWithoutBlockKeepsTable(db: Db, schema: Schema, scope: Fields, mode: SaveMode, attrs: Fields)
    requires WellFormed(db, schema) && scope.Keys <= schema.columns
    requires First(db, scope).Some?
    ensures var s := FindOrInitializeAndDo(db, schema, scope, mode, attrs, None);
            var id := First(db, scope).value;
            s.db == db &&
            (s.outcome == Returned(Load(db, id)) ||
             (mode == SaveBang && !schema.validates(db.rows[id]) && s.outcome == Raised(RecordInvalid)))
  {
    StoredRowIsFixed(db, schema, First(db, scope).value);
  }

  /** Without a match, the record is built from the scope's values plus the
      supplied attributes (the attributes winning), passed through the block,
      and persisted exactly when a saving mode finds it valid. */
  lemma FindBuildsFromScopeAndAttrs(db: Db, schema: Schema, scope: Fields, mode: SaveMode, attrs: Fields, block: Block)
    requires WellFormed(db, schema) && scope.Keys <= schema.columns && attrs.Keys <= schema.Known()
    requires First(db, scope).None?
    ensures var s := FindOrInitializeAndDo(db, schema, scope, mode, attrs, block);
            var built := Yield(Record(None, New(scope, attrs)), block);
            (s.outcome.Returned? ==> s.outcome.record.fields == built.fields) &&
            (s.outcome.Returned? ==>
               (s.outcome.record.Persisted() <==> mode != NoSave && schema.validates(built.fields))) &&
            (s.outcome.Raised? <==> mode == SaveBang && !schema.validates(built.fields))
  {
  }

  /** `find_or_create` / `find_or_create!` without a match, without a block and
      with a valid record add exactly one row under a fresh key, return it, and
      the new row satisfies the scope when the attributes do not contradict it. */
  lemma FindOrCreateInsertsOneRow(db: Db, schema: Schema, scope: Fields, mode: SaveMode, attrs: Fields)
    requires WellFormed(db, schema) && scope.Keys <= schema.columns && attrs.Keys <= schema.Known()
    requires First(db, scope).None?
    requires mode != NoSave && schema.validates(New(scope, attrs))
    ensures var s := FindOrInitializeAndDo(db, schema, scope, mode, attrs, None);
            db.nextId !in db.rows &&
            s.outcome == Returned(Record(Some(db.nextId), New(scope, attrs))) &&
            s.db == Db(db.rows[db.nextId := Stored(schema, New(scope, attrs))], db.nextId + 1) &&
            |s.db.rows| == |db.rows| + 1 &&
            (AgreesWith(attrs, scope) ==> Matches(s.db.rows[db.nextId], scope))
  {
  }

  /** A second find-or-create with the same scope and no block finds the row the
      first one inserted: same key, no further row, whatever attributes it is given. */
  lemma FindOrCreateTwiceFindsSameRow(db: Db, schema: Schema, scope: Fields, mode1: SaveMode, attrs1: Fields,
                                      mode2: SaveMode, attrs2: Fields)
    requires WellFormed(db, schema) && scope.Keys <= schema.columns && attrs1.Keys <= schema.Known()
    requires First(db, scope).None? && AgreesWith(attrs1, scope)
    requires mode1 != NoSave && schema.validates(New(scope, attrs1))
    ensures var s1 := FindOrInitializeAndDo(db, schema, scope, mode1, attrs1, None);
            var s2 := FindOrInitializeAndDo(s1.db, schema, scope, mode2, attrs2, None);
            s2.db == s1.db &&
            (s2.outcome.Returned? ==> s2.outcome.record.id == s1.outcome.record.id) &&
            (s2.outcome.Raised? ==> mode2 == SaveBang && !schema.validates(Stored(schema, New(scope, attrs1))))
  {
    var s1 := FindOrInitializeAndDo(db, schema, scope, mode1, attrs1, None);
    FindOrCreateInsertsOneRow(db, schema, scope, mode1, attrs1);
    FirstAfterInsert(db, scope, Stored(schema, New(scope, attrs1)));
    FindWithoutBlockKeepsTable(s1.db, schema, scope, mode2, attrs2);
  }

  /** The block runs before the save: without a match, what the block makes of
      the new record is what is returned and, in a saving mode, what is inserted. */
  lemma FindBlockRunsBeforeSave(db: Db, schema: Schema, scope: Fields, mode: SaveMode, attrs: Fields,
                                block: Record -> Fields)
    requires WellFormed(db, schema) && scope.Keys <= schema.columns && attrs.Keys <= schema.Known()
    requires First(db, scope).None?
    requires mode != NoSave && schema.validates(block(Record(None, New(scope, attrs))))
    ensures var s := FindOrInitializeAndDo(db, schema, scope, mode, attrs, Some(block));
            var changed := block(Record(None, New(scope, attrs)));
            s.outcome == Returned(Record(Some(db.nextId), changed)) &&
            s.db.rows == db.rows[db.nextId := Stored(schema, changed)]
  {
  }

  // ---------------------------------------------------------------------------
  // create_or_update, create_or_update!, initialize_or_update

  /** With a match, create-or-update keeps the record's identity, gives the named
      fields the supplied values and leaves every other field as stored; a valid
      save writes that over the matched row and touches no other row. */
  lemma UpdateKeepsIdentityAndUnnamedFields(db: Db, schema: Schema, scope: Fields, mode: SaveMode, attrs: Fields)
    requires WellFormed(db, schema) && scope.Keys <= schema.columns && attrs.Keys <= schema.Known()
    requires First(db, scope).Some?
    ensures var s := CreateOrUpdateAndDo(db, schema, scope, mode, attrs, None);
            var id := First(db, scope).value;
            (s.outcome.Raised? <==> mode == SaveBang && !schema.validates(Assign(Load(db, id), attrs).fields)) &&
            (s.outcome.Raised? ==> s.outcome.error == RecordInvalid) &&
            (s.outcome.Returned? ==>
               var r := s.outcome.record;
               r.id == Some(id) &&
               r.fields.Keys == db.rows[id].Keys + attrs.Keys &&
               (forall k | k in attrs :: r.fields[k] == attrs[k]) &&
               (forall k | k in db.rows[id] && k !in attrs :: r.fields[k] == db.rows[id][k])) &&
            s.db.nextId == db.nextId && s.db.rows.Keys == db.rows.Keys &&
            (forall other | other in db.rows && other != id :: s.db.rows[other] == db.rows[other]) &&
            (s.outcome.Returned? && mode != NoSave && schema.validates(s.outcome.record.fields) ==>
               s.db.rows[id] == Stored(schema, s.outcome.record.fields))
  {
  }

  /** Without a match, create-or-update builds the record from the scope and then
      assigns the attributes: the same as building from scope and attributes at once. */
  lemma CreateBuildsFromScopeThenAttrs(scope: Fields, attrs: Fields)
    ensures Assign(Record(None, New(scope, map[])), attrs) == Record(None, New(scope, attrs))
  {
  }

  /** Without a match the two families do the same thing. */
  lemma FamiliesAgreeWithoutMatch(db: Db, schema: Schema, scope: Fields, mode: SaveMode, attrs: Fields, block: Block)
    requires WellFormed(db, schema)
    requires First(db, scope).None?
    ensures CreateOrUpdateAndDo(db, schema, scope, mode, attrs, block)
         == FindOrInitializeAndDo(db, schema, scope, mode, attrs, block)
  {
    CreateBuildsFromScopeThenAttrs(scope, attrs);
  }

  /** With a match, create-or-update hands the block the patched record and
      returns what the block makes of it; `save!` raises exactly when that is
      invalid, and a saving mode that finds it valid writes it over the row. */
  lemma UpdateBlockRunsBeforeSave(db: Db, schema: Schema, scope: Fields, mode: SaveMode, attrs: Fields,
                                  block: Record -> Fields)
    requires WellFormed(db, schema) && scope.Keys <= schema.columns && attrs.Keys <= schema.Known()
    requires First(db, scope).Some?
    ensures var s := CreateOrUpdateAndDo(db, schema, scope, mode, attrs, Some(block));
            var id := First(db, scope).value;
            var changed := block(Assign(Load(db, id), attrs));
            (s.outcome.Raised? <==> mode == SaveBang && !schema.validates(changed)) &&
            (s.outcome.Raised? ==> s.outcome.error == RecordInvalid) &&
            (s.outcome.Returned? ==> s.outcome.record == Record(Some(id), changed)) &&
            (mode != NoSave && schema.validates(changed) ==>
               s.db == Db(db.rows[id := Stored(schema, changed)], db.nextId)) &&
            (!(mode != NoSave && schema.validates(changed)) ==> s.db == db)
  {
  }

  // ---------------------------------------------------------------------------
  // Both families

  /** `find_or_initialize` and `initialize_or_update` never change the table. */
  lemma NoSaveKeepsTable(db: Db, schema: Schema, scope: Fields, attrs: Fields, block: Block)
    requires WellFormed(db, schema)
    ensures FindOrInitializeAndDo(db, schema, scope, NoSave, attrs, block).db == db
    ensures CreateOrUpdateAndDo(db, schema, scope, NoSave, attrs, block).db == db
    ensures FindOrInitializeAndDo(db, schema, scope, NoSave, attrs, block).outcome != Raised(RecordInvalid)
    ensures CreateOrUpdateAndDo(db, schema, scope, NoSave, attrs, block).outcome != Raised(RecordInvalid)
  {
  }

  /** All or nothing, for find-or-create: a call that raises leaves the table as
      it was, and the table changes only through a save that accepted the
      returned record. */
  lemma FindChangesTableOnlyBySuccessfulSave(db: Db, schema: Schema, scope: Fields, mode: SaveMode, attrs: Fields, block: Block)
    requires WellFormed(db, schema)
    ensures var s := FindOrInitializeAndDo(db, schema, scope, mode, attrs, block);
            (s.outcome.Raised? ==> s.db == db) &&
            (s.db != db ==> mode != NoSave && s.outcome.Returned? &&
                            s.outcome.record.Persisted() && schema.validates(s.outcome.record.fields))
  {
  }

  /** All or nothing, for create-or-update. */
  lemma UpdateChangesTableOnlyBySuccessfulSave(db: Db, schema: Schema, scope: Fields, mode: SaveMode, attrs: Fields, block: Block)
    requires WellFormed(db, schema)
    ensures var s := CreateOrUpdateAndDo(db, schema, scope, mode, attrs, block);
            (s.outcome.Raised? ==> s.db == db) &&
            (s.db != db ==> mode != NoSave && s.outcome.Returned? &&
                            s.outcome.record.Persisted() && schema.validates(s.outcome.record.fields))
  {
  }

  /** A scope on a column the table lacks raises from `first`, and unknown
      attributes raise from `new` (only when it is reached) or `attributes=`
      (always); nothing is written in any of these cases. */
  lemma BadInputRaises(db: Db, schema: Schema, scope: Fields, mode: SaveMode, attrs: Fields, block: Block)
    requires WellFormed(db, schema)
    ensures !(scope.Keys <= schema.columns) ==>
              FindOrInitializeAndDo(db, schema, scope, mode, attrs, block) == Step(Raised(StatementInvalid), db) &&
              CreateOrUpdateAndDo(db, schema, scope, mode, attrs, block) == Step(Raised(StatementInvalid), db)
    ensures scope.Keys <= schema.columns && !(attrs.Keys <= schema.Known()) ==>
              CreateOrUpdateAndDo(db, schema, scope, mode, attrs, block) == Step(Raised(UnknownAttribute), db) &&
              (First(db, scope).None? <==>
                 FindOrInitializeAndDo(db, schema, scope, mode, attrs, block) == Step(Raised(UnknownAttribute), db))
  {
  }
}

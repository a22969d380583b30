/** The meaning of the two private helpers of FindOrCreateOnScopes, stated as
    functions from the table before a call to the outcome and the table after it.
    Each helper runs one transaction: look up the first match of the scope,
    build or patch the record, yield it to the block, then send `save`, `save!`
    or nothing to it. */
module Scopes {
  import opened Store

  /** The `meth` argument of the helpers: `:save`, `:save!` or `nil`. */
  datatype SaveMode = Save | SaveBang | NoSave

  /** The exceptions the helpers let through: `first` on a scope that names a
      column the table lacks, `new` or `attributes=` with an attribute the model
      does not know, and `save!` on an invalid record. */
  datatype Error = StatementInvalid | UnknownAttribute | RecordInvalid

  /** What a call does for its caller: returns the record or raises. */
  datatype Outcome = Returned(record: Record) | Raised(error: Error)

  /** The outcome of a call together with the table it leaves. */
  datatype Step = Step(outcome: Outcome, db: Db)

  /** The optional block: it sees the record and decides its attributes
      afterwards; it cannot change the record's identity. */
  type Block = Option<Record -> Fields>

  /** `yield record if block_given?` */
  function Yield(r: Record, block: Block): (s: Record)
    ensures s.id == r.id
    ensures block.None? ==> s == r
    ensures block.Some? ==> s.fields == block.value(r)
  {
    match block
    case None => r
    case Some(f) => Record(r.id, f(r))
  }

  /** `record.send(meth) if meth`: `save` reports failure by its return value,
      which the helpers ignore; `save!` raises. */
  function Send(db: Db, schema: Schema, r: Record, mode: SaveMode): (s: Step)
    requires WellFormed(db, schema)
    ensures WellFormed(s.db, schema)
    ensures mode == NoSave ==> s == Step(Returned(r), db)
    ensures mode != NoSave ==> s.db == Persist(db, schema, r).db
    ensures s.outcome.Raised? <==> mode == SaveBang && !schema.validates(r.fields)
    ensures s.outcome.Raised? ==> s.outcome.error == RecordInvalid
    ensures s.outcome.Returned? && mode != NoSave ==> s.outcome.record == Persist(db, schema, r).record
  {
    match mode
    case NoSave => Step(Returned(r), db)
    case Save =>
      var saved := Persist(db, schema, r);
      Step(Returned(saved.record), saved.db)
    case SaveBang =>
      var saved := Persist(db, schema, r);
      if saved.ok then Step(Returned(saved.record), saved.db)
      else Step(Raised(RecordInvalid), saved.db)
  }

  /** `transaction do ... end`: an exception rolls the table back to how it was. */
  function Transaction(db: Db, body: Step): (s: Step)
    ensures s.outcome == body.outcome
    ensures body.outcome.Raised? ==> s.db == db
    ensures body.outcome.Returned? ==> s.db == body.db
  {
    if body.outcome.Raised? then Step(body.outcome, db) else body
  }

  /** The body of the transaction in `find_or_initialize_and_do`:
      `first || new(*args)`, then the block, then `meth`. */
  function FindOrInitializeAttempt(db: Db, schema: Schema, scope: Fields, mode: SaveMode,
                                   attrs: Fields, block: Block): (s: Step)
    requires WellFormed(db, schema)
    ensures WellFormed(s.db, schema)
  {
    if !(scope.Keys <= schema.columns) then Step(Raised(StatementInvalid), db)
    else match First(db, scope)
      case Some(id) => Send(db, schema, Yield(Load(db, id), block), mode)
      case None =>
        if !(attrs.Keys <= schema.Known()) then Step(Raised(UnknownAttribute), db)
        else Send(db, schema, Yield(Record(None, New(scope, attrs)), block), mode)
  }

  /** `find_or_initialize_and_do`: its attempt, inside a transaction. */
  function FindOrInitializeAndDo(db: Db, schema: Schema, scope: Fields, mode: SaveMode,
                                 attrs: Fields, block: Block): (s: Step)
    requires WellFormed(db, schema)
    ensures WellFormed(s.db, schema)
  {
    Transaction(db, FindOrInitializeAttempt(db, schema, scope, mode, attrs, block))
  }

  /** The body of the transaction in `create_or_update_and_do`:
      `first || new`, then `attributes=`, then the block, then `meth`. */
  function CreateOrUpdateAttempt(db: Db, schema: Schema, scope: Fields, mode: SaveMode,
                                 attrs: Fields, block: Block): (s: Step)
    requires WellFormed(db, schema)
    ensures WellFormed(s.db, schema)
  {
    if !(scope.Keys <= schema.columns) then Step(Raised(StatementInvalid), db)
    else
      var record := match First(db, scope)
                    case Some(id) => Load(db, id)
                    case None => Record(None, New(scope, map[]));
      if !(attrs.Keys <= schema.Known()) then Step(Raised(UnknownAttribute), db)
      else Send(db, schema, Yield(Assign(record, attrs), block), mode)
  }

  /** `create_or_update_and_do`: its attempt, inside a transaction. */
  function CreateOrUpdateAndDo(db: Db, schema: Schema, scope: Fields, mode: SaveMode,
                               attrs: Fields, block: Block): (s: Step)
    requires WellFormed(db, schema)
    ensures WellFormed(s.db, schema)
  {
    Transaction(db, CreateOrUpdateAttempt(db, schema, scope, mode, attrs, block))
  }
}

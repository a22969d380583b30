# FindOrCreateOnScopes, modelled in Dafny

FindOrCreateOnScopes is a Ruby library. It adds six methods to every ActiveRecord relation:
`find_or_create`, `find_or_create!`, `find_or_initialize`, `create_or_update`,
`create_or_update!` and `initialize_or_update`. Each one forwards to one of two private helpers,
passing a save mode: `:save`, `:save!` or `nil`.

- `find_or_initialize_and_do` looks up the first record of the scope. Only when there is none does
  it build a new one, from the scope plus the caller's attributes. It yields the record to the
  optional block, then sends the save method to it.
- `create_or_update_and_do` looks up the first record of the scope, or builds one from the scope
  alone. It always assigns the caller's attributes to the record, yields it, then sends the save
  method to it.

Both helpers do all of this inside one `transaction`.

The model puts a small abstract store in place of ActiveRecord:

- `store.dfy` (module `Store`). A table is a map from primary key to row, plus the next key. A
  scope and a row are each a field → value map. `First` returns the matching row with the lowest
  key. `New` builds scope ∪ attributes, with the attributes winning. `Assign` overwrites the named
  fields. `Persist` is `save`: an invalid record is neither written nor changed; a valid new record
  is inserted under a fresh key; a valid persisted record is written over its row. The model
  class's `Schema` holds its table columns, its in-memory accessors (`attr_accessor :field` in the
  test model) and its validations. The validations are an abstract predicate. Only column values
  are stored.
- `scopes.dfy` (module `Scopes`). Each helper is stated as a function from the table before the
  call to its outcome and the table after it. The outcome is either the returned record or the
  exception raised. The exceptions are `first` on an unknown column, `new` or `attributes=` with an
  unknown attribute, and `save!` on an invalid record. `Transaction` rolls the table back whenever
  the attempt raises.
- `table.dfy` (module `Tables`). The `Table` class keeps its rows and its next key in fields. Its
  methods do the same steps in order: lookup, build or patch, block, save. They include the two
  helpers and the six entry points. `Save` is proved to leave exactly the record and table that
  `Store.Persist` gives, and `Rollback` to restore the table it is handed. Every other method is
  proved to produce exactly the outcome and the new table that the `Scopes` functions give for the
  old table.
- `properties.dfy` (module `ScopeProperties`). Lemmas about what the two helpers promise.
- `scenarios.dfy` (module `Scenarios`). The repository's tests (spec/find_or_create_on_scopes_spec.rb), on its `options` table.

The block is a caller-supplied function. It receives the record and returns the record's
attributes after the block has run. In the model it cannot change the record's key.

Every way an attempt can raise in this model comes before its only write, the save. The rollback
in `Transaction` and `Table.Rollback` therefore never has anything to undo here. The transaction
matters for behaviour the model leaves out: save callbacks that write, a block that raises after
changing data, and concurrent callers.

Two of the tests are named as if an existing match were neither yielded to the block nor saved
(spec/find_or_create_on_scopes_spec.rb:32-36, 46-50). The code does both: it yields the matched
record to the block and then sends `save`/`save!` to it (lib/find_or_create_on_scopes.rb:75-77).
Those tests hold a different Ruby object from the one `first` loads, so they would pass either way. The
model follows the code. A block that changes a column of a matched row therefore has that change
stored. `ScopeProperties.FindReturnsMatch` states this. `ScopeProperties.FindWithoutBlockKeepsTable`
shows that without a block the table is left exactly as it was.

## Model

| member | source | states |
|---|---|---|
| `Store.FirstBelow` | lib/find_or_create_on_scopes.rb:75 | the result is the lowest key below the bound whose row satisfies every filter of the scope; None means no such row exists |
| `Store.First` | lib/find_or_create_on_scopes.rb:75 | `first` on the scope: a matching row, with no matching row at a lower key; None means no row below the next key matches, which under the table invariant (`WellFormed`) is every stored row |
| `Store.Load` | lib/find_or_create_on_scopes.rb:75 | the record `first` returns is persisted, carries the row's key and has the row's attributes |
| `Store.New` | lib/find_or_create_on_scopes.rb:5-7 | a new record's attributes are the scope's fields plus the supplied ones; supplied values win, and other scope values are kept |
| `Store.Assign` | lib/find_or_create_on_scopes.rb:86 | `attributes=` keeps the identity, gives each named field its supplied value and leaves every other field as it was |
| `Store.Stored` | spec/spec_helper.rb:14-20 | the stored row holds exactly the record's column attributes, with the same values; accessor values are not stored |
| `Store.Persist` | lib/find_or_create_on_scopes.rb:77 | `save` succeeds exactly when the record is valid; on failure neither the record nor the table changes; on success a new record is inserted under the next key and a persisted one overwrites its row; the table invariant is kept |
| `Store.StoredRowIsFixed` | lib/find_or_create_on_scopes.rb:77 | writing a loaded row back unchanged leaves the table as it was |
| `Store.FirstAfterInsert` | lib/find_or_create_on_scopes.rb:75 | after a matching row is inserted into a table where nothing matched, `first` finds exactly that row |
| `Scopes.Yield` | lib/find_or_create_on_scopes.rb:76 | the record's key is kept through the block; without a block the record is unchanged; with one, the record's attributes are what the block returns |
| `Scopes.Transaction` | lib/find_or_create_on_scopes.rb:74-78 | the outcome is the attempt's; when the attempt raises the table is the one from before the transaction, and otherwise the one the attempt left |
| `Scopes.Send` | lib/find_or_create_on_scopes.rb:77 | with `nil` nothing happens; otherwise the table is what `save` leaves; `save!` raises RecordInvalid exactly when the record is invalid, while `save` never raises |
| `Scopes.FindOrInitializeAttempt` | lib/find_or_create_on_scopes.rb:75-77 | the attempt keeps the table invariant |
| `Scopes.FindOrInitializeAndDo` | lib/find_or_create_on_scopes.rb:72-80 | the helper keeps the table invariant |
| `Scopes.CreateOrUpdateAttempt` | lib/find_or_create_on_scopes.rb:85-88 | the attempt keeps the table invariant |
| `Scopes.CreateOrUpdateAndDo` | lib/find_or_create_on_scopes.rb:82-91 | the helper keeps the table invariant |
| `ScopeProperties.FindReturnsMatch` | lib/find_or_create_on_scopes.rb:75-77 | with a match, find-or-create returns the matched record after the block; it raises only when `save!` finds that record invalid; it never adds a row; a saving mode that finds the block's result valid writes it over the matched row, and otherwise the table is unchanged |
| `ScopeProperties.FindIgnoresAttrsOnMatch` | lib/find_or_create_on_scopes.rb:75 | with a match, the creation attributes have no effect on the outcome or the table |
| `ScopeProperties.FindWithoutBlockKeepsTable` | spec/find_or_create_on_scopes_spec.rb:10-13 | with a match and no block, the table is unchanged and the stored row is returned (unless `save!` finds it invalid) |
| `ScopeProperties.FindBuildsFromScopeAndAttrs` | spec/find_or_create_on_scopes_spec.rb:15-20 | without a match, the returned record has the scope's values plus the attributes, through the block; it is persisted exactly when a saving mode finds it valid |
| `ScopeProperties.FindOrCreateInsertsOneRow` | lib/find_or_create_on_scopes.rb:75-77 | without a match or a block, a valid saving call inserts exactly one row under a fresh key and returns it; the row satisfies the scope when the attributes do not contradict it |
| `ScopeProperties.FindOrCreateTwiceFindsSameRow` | lib/find_or_create_on_scopes.rb:75-77 | a second call with the same scope returns the first call's key and leaves the table unchanged |
| `ScopeProperties.FindBlockRunsBeforeSave` | lib/find_or_create_on_scopes.rb:76-77 | the block's result is the returned record and, once saved, the inserted row |
| `ScopeProperties.UpdateKeepsIdentityAndUnnamedFields` | spec/find_or_create_on_scopes_spec.rb:81-90 | with a match and no block, create-or-update raises exactly when `save!` finds the patched record invalid, and then RecordInvalid; otherwise it returns the record with the matched key, the named fields set and the others kept; it never adds or removes a row and changes no other row; a valid save overwrites that row with the patched record's columns |
| `ScopeProperties.CreateBuildsFromScopeThenAttrs` | lib/find_or_create_on_scopes.rb:85-86 | building from the scope and then assigning the attributes equals building from scope plus attributes |
| `ScopeProperties.FamiliesAgreeWithoutMatch` | spec/find_or_create_on_scopes_spec.rb:92-97 | without a match, create-or-update and find-or-create give the same outcome and table |
| `ScopeProperties.UpdateBlockRunsBeforeSave` | lib/find_or_create_on_scopes.rb:86-88 | with a match, in every mode, the block sees the patched record and its result is what is returned; `save!` raises RecordInvalid exactly when that result is invalid; a saving mode that finds it valid writes it over the matched row, and otherwise the table is unchanged |
| `ScopeProperties.NoSaveKeepsTable` | lib/find_or_create_on_scopes.rb:33-35 | mode `nil` never changes the table and never raises RecordInvalid, in both families |
| `ScopeProperties.FindChangesTableOnlyBySuccessfulSave` | lib/find_or_create_on_scopes.rb:74-78 | find-or-create: a call that raises leaves the table unchanged; the table changes only when a saving mode persisted the returned, valid record |
| `ScopeProperties.UpdateChangesTableOnlyBySuccessfulSave` | lib/find_or_create_on_scopes.rb:84-89 | create-or-update: a call that raises leaves the table unchanged; the table changes only when a saving mode persisted the returned, valid record |
| `ScopeProperties.BadInputRaises` | lib/find_or_create_on_scopes.rb:84-86 | a scope on an unknown column raises and writes nothing; unknown attributes always raise in create-or-update, and raise in find-or-create exactly when there is no match |
| `Tables.Table.constructor` | spec/spec_helper.rb:20 | a new table is empty and satisfies the invariant |
| `Tables.Table.Save` | lib/find_or_create_on_scopes.rb:77 | the fields it updates in place equal the table `Persist` prescribes, and it returns the same success flag and record |
| `Tables.Table.Send` | lib/find_or_create_on_scopes.rb:77 | the outcome and the new table are those of `Scopes.Send` |
| `Tables.Table.Rollback` | lib/find_or_create_on_scopes.rb:74 | the table is back to its state at the start of the transaction |
| `Tables.Table.FindOrInitializeAttempt` | lib/find_or_create_on_scopes.rb:75-77 | the outcome and the new table are those of `Scopes.FindOrInitializeAttempt` |
| `Tables.Table.CreateOrUpdateAttempt` | lib/find_or_create_on_scopes.rb:85-88 | the outcome and the new table are those of `Scopes.CreateOrUpdateAttempt` |
| `Tables.Table.FindOrInitializeAndDo` | lib/find_or_create_on_scopes.rb:72-80 | the outcome and the new table are those of `Scopes.FindOrInitializeAndDo`; raising leaves the table as it was |
| `Tables.Table.CreateOrUpdateAndDo` | lib/find_or_create_on_scopes.rb:82-91 | the outcome and the new table are those of `Scopes.CreateOrUpdateAndDo`; raising leaves the table as it was |
| `Tables.Table.FindOrCreate` | lib/find_or_create_on_scopes.rb:15-17 | the find-or-create helper with `save`; it never raises RecordInvalid, and raising leaves the table as it was |
| `Tables.Table.FindOrCreateBang` | lib/find_or_create_on_scopes.rb:23-25 | the find-or-create helper with `save!`; raising leaves the table as it was |
| `Tables.Table.FindOrInitialize` | lib/find_or_create_on_scopes.rb:33-35 | the find-or-create helper without saving; the table is unchanged |
| `Tables.Table.CreateOrUpdate` | lib/find_or_create_on_scopes.rb:47-49 | the create-or-update helper with `save`; it never raises RecordInvalid, and raising leaves the table as it was |
| `Tables.Table.CreateOrUpdateBang` | lib/find_or_create_on_scopes.rb:56-58 | the create-or-update helper with `save!`; raising leaves the table as it was |
| `Tables.Table.InitializeOrUpdate` | lib/find_or_create_on_scopes.rb:66-68 | the create-or-update helper without saving; the table is unchanged |
| `Scenarios.OneRow` | spec/find_or_create_on_scopes_spec.rb:11 | the fixture is the table that saving a new {name, value} record into the empty table leaves: well formed, one row, under key 1 |
| `Scenarios.FooRowIsFirst` | spec/find_or_create_on_scopes_spec.rb:12 | `where(name: 'foo').first` finds the row {name: foo} |
| `Scenarios.FindOrCreateOnEmptyScenario` | spec/find_or_create_on_scopes_spec.rb:15-20 | on an empty table, find_or_create(value: bar) inserts {name: foo, value: bar} under key 1 and returns it |
| `Scenarios.FindOrCreateAgainScenario` | spec/find_or_create_on_scopes_spec.rb:10-13 | find_or_create(value: bar2) returns the stored {name: foo, value: bar} unchanged |
| `Scenarios.CreateOrUpdateExistingScenario` | spec/find_or_create_on_scopes_spec.rb:81-90 | create_or_update(value: bar2) keeps key 1 and stores value bar2 |
| `Scenarios.CreateBesideOtherRowScenario` | spec/find_or_create_on_scopes_spec.rb:15-20 | a row for name foo2 does not match; {name: foo, value: bar2} is returned and inserted under key 2 beside the untouched row 1, and the next key becomes 3 |
| `Scenarios.BlockSetsAccessorScenario` | spec/find_or_create_on_scopes_spec.rb:27-30 | the block's `field` value is in the returned record and not in the stored row |
| `Scenarios.FooWithField` | spec/find_or_create_on_scopes_spec.rb:33 | the table `Option.create!(name: 'foo', field: 'foobar')` leaves is what saving that new record into the empty table gives: one row holding only `{name: foo}`, since `field` is not a column |
| `Scenarios.BlockOnExistingMatchScenario` | spec/find_or_create_on_scopes_spec.rb:32-36 | on the `FooWithField` table, a block that sets only `field` on the matched record leaves the table exactly as it was |

## Left out

- Retry on duplicate-key errors, and the block's `ABORT_SAVE` return value. The tests exercise
  both (spec/find_or_create_on_scopes_spec.rb:52-70, 128-153), but lib/find_or_create_on_scopes.rb
  defines neither. The model does not give the code behaviour it lacks.
- Calls with no attributes at all. The tests expect `attributes=` to be skipped then
  (spec/find_or_create_on_scopes_spec.rb:112-118). The library instead always calls `attributes=`
  with the caller's arguments (lib/find_or_create_on_scopes.rb:86). With no arguments, that call
  has none, and Ruby raises ArgumentError in the create-or-update family. The model always takes
  one attribute map; an empty map stands for an explicit `{}` argument, not for a call with no
  arguments. Ruby's splat `*args` is that single map.
- Concurrency between callers, and the isolation the real transaction gives. Calls are modelled
  one at a time.
- ActiveRecord itself is replaced by the abstract store in `Store`. This covers SQL generation for
  `first`, connections, and the `ActiveRecord::Relation` mix-in (lib/find_or_create_on_scopes.rb:94).
  Errors other than the three modelled ones are left out: connectivity, and database constraints
  such as `NOT NULL` on `name` (spec/spec_helper.rb:20).
- Concrete validation rules. `Schema.validates` is an arbitrary predicate on the record's attributes.
- NULL values. A field absent from a map is NULL. A scope filters only on present values, so
  `where(value: nil)` is not modelled. `New` and `Assign` only add or overwrite keys, so an attribute
  set to nil (`create_or_update(value: nil)`, `new(name: nil)`) cannot be expressed either.
- Relations other than a conjunction of equality filters. An `order` clause changes which row
  `first` returns, and so do string or range `where` clauses; the model's `First` always takes
  the lowest key among the rows equal to the scope.
- Scopes or attributes that name the primary key `id`. The key is kept outside the attribute map,
  so the model raises StatementInvalid (or UnknownAttribute) where Ruby would find or create the
  record by its key.
- A block that assigns the key (`record.id = ...`). A Ruby block may do so before the save; the
  model's block returns only the attributes, so `Yield` always keeps the key.
- A block with other side effects. The block is a function of the record that returns its new
  attributes. A block that saves the record itself, raises, or sets an attribute that has no
  setter is not modelled.
- The SQLite connection and table setup in spec/spec_helper.rb. Only its column list and the
  `field` accessor are used.

/** The behaviour the repository's tests describe, on the `options` table of
    its test setup: columns `name` and `value` (besides the key), an in-memory
    accessor `field`, and no validations. */
module Scenarios {
  import opened Store
  import opened Scopes

  const OptionSchema: Schema := Schema({"name", "value"}, {"field"}, (f: Fields) => true)

  const FooScope: Fields := map["name" := "foo"]

  /** A table holding one row, as `Option.create!(name: name, value: value)` leaves it. */
  function OneRow(name: Value, value: Value): (db: Db)
    ensures WellFormed(db, OptionSchema)
    ensures |db.rows| == 1 && 1 in db.rows
    ensures db == Persist(Empty, OptionSchema, Record(None, map["name" := name, "value" := value])).db
  {
    var row := map["name" := name, "value" := value];
    assert Stored(OptionSchema, row) == row;
    Db(map[1 := row], 2)
  }

  /** `first` finds the single row {name: foo, ...}. */
  lemma FooRowIsFirst(value: Value)
    ensures First(OneRow("foo", value), FooScope) == Some(1)
  {
  }

  /** find_or_create with value "bar" on an empty table inserts {name: foo, value: bar}. */
  lemma FindOrCreateOnEmptyScenario()
    ensures FindOrInitializeAndDo(Empty, OptionSchema, FooScope, SaveMode.Save, map["value" := "bar"], None)
         == Step(Returned(Record(Some(1), map["name" := "foo", "value" := "bar"])), OneRow("foo", "bar"))
  {
    var built := map["name" := "foo", "value" := "bar"];
    assert New(FooScope, map["value" := "bar"]) == built;
    assert Stored(OptionSchema, built) == built;
  }

  /** Repeating find_or_create with value "bar2" returns the same record unchanged. */
  lemma FindOrCreateAgainScenario()
    ensures FindOrInitializeAndDo(OneRow("foo", "bar"), OptionSchema, FooScope, SaveMode.Save, map["value" := "bar2"], None)
         == Step(Returned(Record(Some(1), map["name" := "foo", "value" := "bar"])), OneRow("foo", "bar"))
  {
    FooRowIsFirst("bar");
    StoredRowIsFixed(OneRow("foo", "bar"), OptionSchema, 1);
  }

  /** create_or_update with value "bar2" then keeps the key and changes the value. */
  lemma CreateOrUpdateExistingScenario()
    ensures CreateOrUpdateAndDo(OneRow("foo", "bar"), OptionSchema, FooScope, SaveMode.Save, map["value" := "bar2"], None)
         == Step(Returned(Record(Some(1), map["name" := "foo", "value" := "bar2"])), OneRow("foo", "bar2"))
  {
    var db := OneRow("foo", "bar");
    var updated := map["name" := "foo", "value" := "bar2"];
    FooRowIsFirst("bar");
    assert Assign(Load(db, 1), map["value" := "bar2"]) == Record(Some(1), updated);
    assert Stored(OptionSchema, updated) == updated;
    assert Persist(db, OptionSchema, Record(Some(1), updated)) == Saved(true, Record(Some(1), updated), OneRow("foo", "bar2"));
    assert CreateOrUpdateAttempt(db, OptionSchema, FooScope, SaveMode.Save, map["value" := "bar2"], None)
        == Send(db, OptionSchema, Record(Some(1), updated), SaveMode.Save);
  }

  /** A row for another name does not match: find_or_create builds {name: foo, value: bar2}
      as a second row under key 2. */
  lemma CreateBesideOtherRowScenario()
    ensures var s := FindOrInitializeAndDo(OneRow("foo2", "bar2"), OptionSchema, FooScope, SaveMode.Save, map["value" := "bar2"], None);
            s.outcome == Returned(Record(Some(2), map["name" := "foo", "value" := "bar2"])) &&
            s.db == Db(OneRow("foo2", "bar2").rows[2 := map["name" := "foo", "value" := "bar2"]], 3) &&
            |s.db.rows| == 2
  {
    assert !Matches(OneRow("foo2", "bar2").rows[1], FooScope) by {
      assert OneRow("foo2", "bar2").rows[1]["name"] != FooScope["name"];
    }
    var built := map["name" := "foo", "value" := "bar2"];
    assert New(FooScope, map["value" := "bar2"]) == built;
    assert Stored(OptionSchema, built) == built;
  }

  /** The block's change to the accessor `field` is in the returned record but
      not in the stored row. */
  lemma BlockSetsAccessorScenario()
    ensures var s := FindOrInitializeAndDo(Empty, OptionSchema, FooScope, SaveMode.Save, map["value" := "bar"],
                                           Some((r: Record) => r.fields["field" := "foobar"]));
            s.outcome.Returned? && "field" in s.outcome.record.fields &&
            s.outcome.record.fields["field"] == "foobar" &&
            s.db == OneRow("foo", "bar")
  {
    var withField := map["name" := "foo", "value" := "bar", "field" := "foobar"];
    assert New(FooScope, map["value" := "bar"])["field" := "foobar"] == withField;
    assert Stored(OptionSchema, withField) == map["name" := "foo", "value" := "bar"];
  }

  /** The table `Option.create!(name: 'foo', field: 'foobar')` leaves: the
      accessor `field` is not a column, so the row holds only {name: foo}. */
  function FooWithField(): (db: Db)
    ensures WellFormed(db, OptionSchema)
    ensures db == Persist(Empty, OptionSchema, Record(None, map["name" := "foo", "field" := "foobar"])).db
    ensures db.rows == map[1 := map["name" := "foo"]]
  {
    assert Stored(OptionSchema, map["name" := "foo", "field" := "foobar"]) == map["name" := "foo"];
    Db(map[1 := map["name" := "foo"]], 2)
  }

  /** On that match, a block that sets only the accessor `field` leaves the
      table, its row count and its stored row, as it was. */
  lemma BlockOnExistingMatchScenario()
    ensures var s := FindOrInitializeAndDo(FooWithField(), OptionSchema, FooScope, SaveMode.Save, map["value" := "bar"],
                                           Some((r: Record) => r.fields["field" := "foobar2"]));
            s.db == FooWithField()
  {
    var db := FooWithField();
    assert First(db, FooScope) == Some(1);
    var withField := map["name" := "foo", "field" := "foobar2"];
    assert Stored(OptionSchema, withField) == map["name" := "foo"];
  }
}

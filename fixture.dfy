/**
 * `basic_preprocessing` end to end on the five trips the repository's
 * preprocessing tests are written against: 15 and 30 minutes on 2025-01-01,
 * one starting on 2024-12-31, one on 2026-01-01 lasting 75 minutes, and one
 * of -10 minutes, with the location ids 100/110 and 200/250 on the first two.
 * The lemmas hold for every valid frame with those timestamps and ids, so for
 * the test's ten-column frame whatever its other columns hold;
 * `FixtureApplies` shows that its schema passes the pipeline's column checks
 * and `FixtureFrameApplies` that the test's frame itself meets every
 * requirement of `BasicPreprocessingFixture`.
 */
module PreprocessingFixture {
  import opened Frames
  import opened Preprocessing

  /** The columns `cast_categorical_columns` turns into categories by default. */
  lemma CastColumns()
    ensures PickupLocationColumn in (set c | c in DefaultCategorical)
    ensures DropoffLocationColumn in (set c | c in DefaultCategorical)
    ensures DurationColumn !in (set c | c in DefaultCategorical)
  {
    assert DefaultCategorical[3] == PickupLocationColumn && DefaultCategorical[4] == DropoffLocationColumn;
    DefaultCategoricalNames();
  }

  /** One cell after the cast: categorised when its column is listed, unchanged otherwise. */
  lemma CastCell(names: set<string>, row: Row, c: string)
    requires c in row
    ensures c in CastRow(names)(row)
    ensures CastRow(names)(row)[c] == if c in names then Categorize(row[c]) else row[c]
  {
  }

  /**
   * The columns after the pipeline: the pair key of a surviving row is the
   * key of its raw location ids, and its duration is computed from its raw
   * timestamps.
   */
  lemma PreprocessedCells(row: Row)
    requires PickupLocationColumn in row && DropoffLocationColumn in row
    requires row[PickupLocationColumn].Int? && row[DropoffLocationColumn].Int?
    ensures PairColumn in PreprocessRow(row) && DurationColumn in PreprocessRow(row)
    ensures PreprocessRow(row)[PairColumn] == PairKey(row[PickupLocationColumn], row[DropoffLocationColumn])
    ensures PreprocessRow(row)[DurationColumn] == DurationOf(row)
  {
    var names := set c | c in DefaultCategorical;
    var r1 := row[DurationColumn := DurationOf(row)];
    assert AddDuration()(row) == r1;
    var r2 := CastRow(names)(r1);
    assert CastDefault()(r1) == r2;
    CastColumns();
    CastCell(names, r1, PickupLocationColumn);
    CastCell(names, r1, DropoffLocationColumn);
    CastCell(names, r1, DurationColumn);
    assert PreprocessRow(row) == r2[PairColumn := PairCell(r2)];
    PairKeyAfterCast(row[PickupLocationColumn], row[DropoffLocationColumn]);
  }

  /** The fixture's pickup and dropoff times, in seconds since the epoch. */
  const PickupTimes: seq<int> :=
    [January2025 + 36000, January2025 + 41400, January2025 - 900, 1767225600, January2025 + 137700]
  const DropoffTimes: seq<int> :=
    [January2025 + 36900, January2025 + 43200, January2025 + 1800, 1767225600 + 4500, January2025 + 137100]

  /** A frame whose five rows carry the fixture's timestamps and, on the first two, its location ids. */
  predicate FixtureLike(f: Frame) {
    && |f.rows| == 5
    && (forall k :: 0 <= k < 5 ==>
          && PickupColumn in f.rows[k] && DropoffColumn in f.rows[k]
          && f.rows[k][PickupColumn] == Datetime(PickupTimes[k])
          && f.rows[k][DropoffColumn] == Datetime(DropoffTimes[k]))
    && PickupLocationColumn in f.rows[0] && DropoffLocationColumn in f.rows[0]
    && f.rows[0][PickupLocationColumn] == Int(100) && f.rows[0][DropoffLocationColumn] == Int(110)
    && PickupLocationColumn in f.rows[1] && DropoffLocationColumn in f.rows[1]
    && f.rows[1][PickupLocationColumn] == Int(200) && f.rows[1][DropoffLocationColumn] == Int(250)
  }

  /** Only the first two trips pass the date range and the duration bounds. */
  lemma FixtureKept(f: Frame)
    requires FixtureLike(f)
    ensures Keep(f.rows, RawFilter(January2025, February2025)) == f.rows[..2]
  {
    var rows := f.rows;
    var keep := RawFilter(January2025, February2025);
    assert keep(rows[0]) && keep(rows[1]);
    assert !keep(rows[2]) && !keep(rows[3]) && !keep(rows[4]);
    assert forall k :: 0 <= k < |rows[2..]| ==> !keep(rows[2..][k]) by {
      forall k | 0 <= k < |rows[2..]| ensures !keep(rows[2..][k]) {
        assert rows[2..][k] == rows[k + 2];
      }
    }
    KeepAll(rows[..2], keep);
    KeepNone(rows[2..], keep);
    KeepAppend(rows[..2], rows[2..], keep);
    assert rows[..2] + rows[2..] == rows;
  }

  /** The ten columns of the fixture with the types polars infers for them. */
  const FixtureSchema: seq<Field> := [
    Field("VendorID", IntType), Field(PickupColumn, DatetimeType), Field(DropoffColumn, DatetimeType),
    Field("RatecodeID", IntType), Field("store_and_fwd_flag", StrType),
    Field(PickupLocationColumn, IntType), Field(DropoffLocationColumn, IntType),
    Field("payment_type", IntType), Field("trip_distance", FloatType), Field("fare_amount", FloatType)]

  /**
   * The expected schema of the preprocessing test: the ten columns in place,
   * the six identifier columns categorical, then `duration` as a float and
   * `pickup_dropoff_pair` as a categorical.
   */
  const ExpectedSchema: seq<Field> := [
    Field("VendorID", CatType), Field(PickupColumn, DatetimeType), Field(DropoffColumn, DatetimeType),
    Field("RatecodeID", CatType), Field("store_and_fwd_flag", CatType),
    Field(PickupLocationColumn, CatType), Field(DropoffLocationColumn, CatType),
    Field("payment_type", CatType), Field("trip_distance", FloatType), Field("fare_amount", FloatType),
    Field(DurationColumn, FloatType), Field(PairColumn, CatType)]

  /** The fixture's columns are distinct. */
  lemma FixtureDistinct()
    ensures DistinctNames(FixtureSchema)
  {
  }

  /**
   * The fixture's schema meets `basic_preprocessing`'s column checks: both
   * timestamps are datetimes and the six identifier columns are integers or
   * strings.
   */
  lemma FixtureApplies()
    ensures PipelineApplies(FixtureSchema)
  {
    FixtureDistinct();
    assert FixtureSchema[1] == Field(PickupColumn, DatetimeType);
    assert FixtureSchema[2] == Field(DropoffColumn, DatetimeType);
    var at := [0, 3, 4, 5, 6, 7];
    forall i | 0 <= i < |DefaultCategorical|
      ensures HasColumnOf(FixtureSchema, DefaultCategorical[i], Renderable)
    {
      assert FixtureSchema[at[i]].name == DefaultCategorical[i];
      assert FixtureSchema[at[i]].dtype in Renderable;
    }
  }

  /** The fixture has distinct columns, none of them `duration` or the pair column. */
  lemma FixtureNames()
    ensures DistinctNames(FixtureSchema)
    ensures DurationColumn !in Names(FixtureSchema) && PairColumn !in Names(FixtureSchema)
  {
    FixtureDistinct();
    NamesIndex(FixtureSchema, DurationColumn);
    NamesIndex(FixtureSchema, PairColumn);
  }

  /** The default cast list as a set. */
  lemma DefaultNamesSet()
    ensures (set c | c in DefaultCategorical)
         == {"VendorID", "RatecodeID", "store_and_fwd_flag", PickupLocationColumn, DropoffLocationColumn, "payment_type"}
  {
  }

  /** The fixture's identifier columns, in schema order, and its other columns with `duration`. */
  const CastNames: seq<string> :=
    ["VendorID", "RatecodeID", "store_and_fwd_flag", PickupLocationColumn, DropoffLocationColumn, "payment_type"]
  const KeptNames: seq<string> := [PickupColumn, DropoffColumn, "trip_distance", "fare_amount", DurationColumn]

  /** The fixture's schema after the duration step, over arbitrary names. */
  function Shape(cat: seq<string>, kept: seq<string>): seq<Field>
    requires |cat| == 6 && |kept| == 5
  {
    [Field(cat[0], IntType), Field(kept[0], DatetimeType), Field(kept[1], DatetimeType),
     Field(cat[1], IntType), Field(cat[2], StrType), Field(cat[3], IntType), Field(cat[4], IntType),
     Field(cat[5], IntType), Field(kept[2], FloatType), Field(kept[3], FloatType), Field(kept[4], FloatType)]
  }

  /** The same schema with the identifier columns categorical. */
  function CastShape(cat: seq<string>, kept: seq<string>): seq<Field>
    requires |cat| == 6 && |kept| == 5
  {
    [Field(cat[0], CatType), Field(kept[0], DatetimeType), Field(kept[1], DatetimeType),
     Field(cat[1], CatType), Field(cat[2], CatType), Field(cat[3], CatType), Field(cat[4], CatType),
     Field(cat[5], CatType), Field(kept[2], FloatType), Field(kept[3], FloatType), Field(kept[4], FloatType)]
  }

  /** Retyping the shape categorises exactly the columns named in the cast set. */
  lemma RetypeShape(cat: seq<string>, kept: seq<string>, names: set<string>)
    requires |cat| == 6 && |kept| == 5
    requires forall i :: 0 <= i < 6 ==> cat[i] in names
    requires forall i :: 0 <= i < 5 ==> kept[i] !in names
    ensures Retype(Shape(cat, kept), names) == CastShape(cat, kept)
  {
  }

  /** The fixture's schemas are the shapes over its own names. */
  lemma FixtureShapes()
    ensures FixtureSchema + [Field(DurationColumn, FloatType)] == Shape(CastNames, KeptNames)
    ensures ExpectedSchema[..11] == CastShape(CastNames, KeptNames)
  {
  }

  /** The identifier columns are in the default cast set and the others are not. */
  lemma CastNamesMembers()
    ensures forall i :: 0 <= i < 6 ==> CastNames[i] in (set c | c in DefaultCategorical)
    ensures forall i :: 0 <= i < 5 ==> KeptNames[i] !in (set c | c in DefaultCategorical)
  {
    DefaultNamesSet();
    var names := {"VendorID", "RatecodeID", "store_and_fwd_flag", PickupLocationColumn, DropoffLocationColumn, "payment_type"};
    assert PickupColumn !in names && DropoffColumn !in names;
    assert "trip_distance" !in names && "fare_amount" !in names && DurationColumn !in names;
  }

  /** The cast retypes exactly the six identifier columns of the fixture, `duration` included as is. */
  lemma FixtureRetype()
    ensures Retype(FixtureSchema + [Field(DurationColumn, FloatType)], set c | c in DefaultCategorical) == ExpectedSchema[..11]
  {
    FixtureShapes();
    CastNamesMembers();
    RetypeShape(CastNames, KeptNames, set c | c in DefaultCategorical);
  }

  /** `basic_preprocessing` turns the fixture's schema into the test's expected schema. */
  lemma FixtureOutputSchema()
    ensures DistinctNames(FixtureSchema) && OutputSchema(FixtureSchema) == ExpectedSchema
  {
    FixtureNames();
    var s1 := Replace(FixtureSchema, Field(DurationColumn, FloatType));
    assert s1 == FixtureSchema + [Field(DurationColumn, FloatType)];
    FixtureRetype();
    var s2 := Retype(s1, set c | c in DefaultCategorical);
    assert Names(s2) == Names(FixtureSchema) + {DurationColumn};
    assert PairColumn !in Names(s2);
    assert s2 + [Field(PairColumn, CatType)] == ExpectedSchema;
  }

  /** The key of the second surviving trip; the first is `PairKeyExamples`. */
  lemma SecondKey()
    ensures PairKey(Int(200), Int(250)) == Cat("200_250")
  {
    assert Text.Digits(200) == "200";
    assert Text.Digits(250) == "250";
  }

  /** The first trip after the row maps: 15 minutes, key "100_110". */
  lemma FirstTripCells(row: Row)
    requires PickupColumn in row && DropoffColumn in row && PickupLocationColumn in row && DropoffLocationColumn in row
    requires row[PickupColumn] == Datetime(January2025 + 36000) && row[DropoffColumn] == Datetime(January2025 + 36900)
    requires row[PickupLocationColumn] == Int(100) && row[DropoffLocationColumn] == Int(110)
    ensures DurationColumn in PreprocessRow(row) && PairColumn in PreprocessRow(row)
    ensures PreprocessRow(row)[DurationColumn] == Float(15.0) && PreprocessRow(row)[PairColumn] == Cat("100_110")
  {
    PreprocessedCells(row);
    PairKeyExamples();
  }

  /** The second trip after the row maps: 30 minutes, key "200_250". */
  lemma SecondTripCells(row: Row)
    requires PickupColumn in row && DropoffColumn in row && PickupLocationColumn in row && DropoffLocationColumn in row
    requires row[PickupColumn] == Datetime(January2025 + 41400) && row[DropoffColumn] == Datetime(January2025 + 43200)
    requires row[PickupLocationColumn] == Int(200) && row[DropoffLocationColumn] == Int(250)
    ensures DurationColumn in PreprocessRow(row) && PairColumn in PreprocessRow(row)
    ensures PreprocessRow(row)[DurationColumn] == Float(30.0) && PreprocessRow(row)[PairColumn] == Cat("200_250")
  {
    PreprocessedCells(row);
    SecondKey();
  }

  /** The two surviving trips after the row maps: their durations and pair keys. */
  lemma FixtureCells(f: Frame)
    requires FixtureLike(f)
    ensures var rows := Apply(f.rows[..2], PreprocessRow);
      && DurationColumn in rows[0] && PairColumn in rows[0] && DurationColumn in rows[1] && PairColumn in rows[1]
      && rows[0][DurationColumn] == Float(15.0) && rows[0][PairColumn] == Cat("100_110")
      && rows[1][DurationColumn] == Float(30.0) && rows[1][PairColumn] == Cat("200_250")
  {
    var rows := Apply(f.rows[..2], PreprocessRow);
    assert rows[0] == PreprocessRow(f.rows[0]) && rows[1] == PreprocessRow(f.rows[1]);
    assert PickupTimes[0] == January2025 + 36000 && DropoffTimes[0] == January2025 + 36900;
    assert PickupTimes[1] == January2025 + 41400 && DropoffTimes[1] == January2025 + 43200;
    FirstTripCells(f.rows[0]);
    SecondTripCells(f.rows[1]);
  }

  /** A trip of the fixture's ten columns. */
  function TripRow(vendor: int, pickup: int, dropoff: int, ratecode: int, flag: string,
                   puLocation: int, doLocation: int, payment: int, distance: real, fare: real): Row
  {
    map["VendorID" := Int(vendor), PickupColumn := Datetime(pickup), DropoffColumn := Datetime(dropoff),
        "RatecodeID" := Int(ratecode), "store_and_fwd_flag" := Str(flag),
        PickupLocationColumn := Int(puLocation), DropoffLocationColumn := Int(doLocation),
        "payment_type" := Int(payment), "trip_distance" := Float(distance), "fare_amount" := Float(fare)]
  }

  /** The names of a ten-column schema, over arbitrary fields. */
  lemma NamesOfTen(s: seq<Field>)
    requires |s| == 10
    ensures Names(s) == {s[0].name, s[1].name, s[2].name, s[3].name, s[4].name,
                         s[5].name, s[6].name, s[7].name, s[8].name, s[9].name}
  {
    assert Names(s[9..]) == {s[9].name} by { assert s[9..][1..] == []; }
    assert Names(s[8..]) == {s[8].name} + Names(s[9..]) by { assert s[8..][1..] == s[9..]; }
    assert Names(s[7..]) == {s[7].name} + Names(s[8..]) by { assert s[7..][1..] == s[8..]; }
    assert Names(s[6..]) == {s[6].name} + Names(s[7..]) by { assert s[6..][1..] == s[7..]; }
    assert Names(s[5..]) == {s[5].name} + Names(s[6..]) by { assert s[5..][1..] == s[6..]; }
    assert Names(s[4..]) == {s[4].name} + Names(s[5..]) by { assert s[4..][1..] == s[5..]; }
    assert Names(s[3..]) == {s[3].name} + Names(s[4..]) by { assert s[3..][1..] == s[4..]; }
    assert Names(s[2..]) == {s[2].name} + Names(s[3..]) by { assert s[2..][1..] == s[3..]; }
    assert Names(s[1..]) == {s[1].name} + Names(s[2..]) by { assert s[1..][1..] == s[2..]; }
  }

  /** The fixture's column names, as a set. */
  lemma FixtureNamesSet()
    ensures Names(FixtureSchema) == {"VendorID", PickupColumn, DropoffColumn, "RatecodeID", "store_and_fwd_flag",
      PickupLocationColumn, DropoffLocationColumn, "payment_type", "trip_distance", "fare_amount"}
  {
    NamesOfTen(FixtureSchema);
  }

  /** The cells of a trip row: each column holds the value it was given. */
  lemma TripRowCells(vendor: int, pickup: int, dropoff: int, ratecode: int, flag: string,
                     puLocation: int, doLocation: int, payment: int, distance: real, fare: real)
    ensures var r := TripRow(vendor, pickup, dropoff, ratecode, flag, puLocation, doLocation, payment, distance, fare);
      && r.Keys == {"VendorID", PickupColumn, DropoffColumn, "RatecodeID", "store_and_fwd_flag",
                    PickupLocationColumn, DropoffLocationColumn, "payment_type", "trip_distance", "fare_amount"}
      && r[PickupColumn] == Datetime(pickup) && r[DropoffColumn] == Datetime(dropoff)
      && r[PickupLocationColumn] == Int(puLocation) && r[DropoffLocationColumn] == Int(doLocation)
      && r["VendorID"] == Int(vendor) && r["RatecodeID"] == Int(ratecode) && r["store_and_fwd_flag"] == Str(flag)
      && r["payment_type"] == Int(payment) && r["trip_distance"] == Float(distance) && r["fare_amount"] == Float(fare)
  {
  }

  /** Every trip row fits the fixture's schema. */
  lemma TripRowFits(vendor: int, pickup: int, dropoff: int, ratecode: int, flag: string,
                    puLocation: int, doLocation: int, payment: int, distance: real, fare: real)
    ensures Fits(FixtureSchema, TripRow(vendor, pickup, dropoff, ratecode, flag, puLocation, doLocation, payment, distance, fare))
  {
    FixtureNamesSet();
    TripRowCells(vendor, pickup, dropoff, ratecode, flag, puLocation, doLocation, payment, distance, fare);
  }

  /** The test's five trips over its ten columns. */
  const FixtureFrame: Frame := Frame(FixtureSchema, [
    TripRow(1, PickupTimes[0], DropoffTimes[0], 1, "N", 100, 110, 1, 2.5, 12.5),
    TripRow(2, PickupTimes[1], DropoffTimes[1], 1, "N", 200, 250, 2, 5.1, 18.0),
    TripRow(1, PickupTimes[2], DropoffTimes[2], 2, "Y", 150, 160, 1, 3.2, 15.5),
    TripRow(2, PickupTimes[3], DropoffTimes[3], 1, "N", 300, 310, 1, 8.7, 25.0),
    TripRow(1, PickupTimes[4], DropoffTimes[4], 3, "Y", 100, 120, 2, 1.8, 8.5)])

  /** The test's frame is well formed: every trip fits the ten columns. */
  lemma FixtureFrameValid()
    ensures Valid(FixtureFrame)
  {
    FixtureDistinct();
    TripRowFits(1, PickupTimes[0], DropoffTimes[0], 1, "N", 100, 110, 1, 2.5, 12.5);
    TripRowFits(2, PickupTimes[1], DropoffTimes[1], 1, "N", 200, 250, 2, 5.1, 18.0);
    TripRowFits(1, PickupTimes[2], DropoffTimes[2], 2, "Y", 150, 160, 1, 3.2, 15.5);
    TripRowFits(2, PickupTimes[3], DropoffTimes[3], 1, "N", 300, 310, 1, 8.7, 25.0);
    TripRowFits(1, PickupTimes[4], DropoffTimes[4], 3, "Y", 100, 120, 2, 1.8, 8.5);
  }

  /** The test's frame carries the fixture's timestamps and location ids. */
  lemma FixtureFrameLike()
    ensures FixtureLike(FixtureFrame)
  {
    var rows := FixtureFrame.rows;
    forall k | 0 <= k < 5
      ensures PickupColumn in rows[k] && DropoffColumn in rows[k]
      ensures rows[k][PickupColumn] == Datetime(PickupTimes[k]) && rows[k][DropoffColumn] == Datetime(DropoffTimes[k])
    {
      if k == 0 { TripRowCells(1, PickupTimes[0], DropoffTimes[0], 1, "N", 100, 110, 1, 2.5, 12.5); }
      else if k == 1 { TripRowCells(2, PickupTimes[1], DropoffTimes[1], 1, "N", 200, 250, 2, 5.1, 18.0); }
      else if k == 2 { TripRowCells(1, PickupTimes[2], DropoffTimes[2], 2, "Y", 150, 160, 1, 3.2, 15.5); }
      else if k == 3 { TripRowCells(2, PickupTimes[3], DropoffTimes[3], 1, "N", 300, 310, 1, 8.7, 25.0); }
      else { TripRowCells(1, PickupTimes[4], DropoffTimes[4], 3, "Y", 100, 120, 2, 1.8, 8.5); }
    }
  }

  /** The test's frame meets every requirement of `BasicPreprocessingFixture`. */
  lemma FixtureFrameApplies()
    ensures Valid(FixtureFrame) && PipelineApplies(FixtureFrame.schema) && FixtureLike(FixtureFrame)
    ensures FixtureFrame.schema == FixtureSchema
  {
    FixtureFrameValid();
    FixtureApplies();
    FixtureFrameLike();
  }

  /**
   * `basic_preprocessing` of the fixture for January 2025: the first two
   * trips remain, in order, with durations 15.0 and 30.0 and the pair keys
   * "100_110" and "200_250"; on the fixture's ten columns the result has the
   * test's expected twelve.
   */
  lemma BasicPreprocessingFixture(f: Frame)
    requires Valid(f) && PipelineApplies(f.schema) && FixtureLike(f)
    ensures BasicPreprocessing(f, January2025, February2025).Ok?
    ensures var rows := BasicPreprocessing(f, January2025, February2025).value.rows;
      && rows == Apply(f.rows[..2], PreprocessRow)
      && DurationColumn in rows[0] && PairColumn in rows[0] && DurationColumn in rows[1] && PairColumn in rows[1]
      && rows[0][DurationColumn] == Float(15.0) && rows[0][PairColumn] == Cat("100_110")
      && rows[1][DurationColumn] == Float(30.0) && rows[1][PairColumn] == Cat("200_250")
    ensures f.schema == FixtureSchema ==>
      BasicPreprocessing(f, January2025, February2025).value.schema == ExpectedSchema
  {
    BasicPreprocessingRows(f, January2025, February2025);
    FixtureKept(f);
    FixtureCells(f);
    FixtureOutputSchema();
  }
}

/**
 * The row-level feature pipeline: the trip duration, the pickup-date and
 * duration filters, the categorical identifier columns and the pickup/dropoff
 * pair key, and their fixed composition.
 */
module Preprocessing {
  import opened Options
  import opened Frames
  import Text

  // ---------------------------------------------------------------------
  // calculate_duration
  // ---------------------------------------------------------------------

  /**
   * `(dropoff - pickup).dt.total_seconds() / 60` on one row: the difference
   * in minutes as a float, or null when either time is null.
   */
  function DurationOf(row: Row): (r: Value)
    ensures r == Null || r.Float?
    ensures r.Float? <==>
      PickupColumn in row && DropoffColumn in row && row[PickupColumn].Datetime? && row[DropoffColumn].Datetime?
    ensures r.Float? ==> r.x * 60.0 == (row[DropoffColumn].secs - row[PickupColumn].secs) as real
  {
    if PickupColumn in row && DropoffColumn in row && row[PickupColumn].Datetime? && row[DropoffColumn].Datetime?
    then Float((row[DropoffColumn].secs - row[PickupColumn].secs) as real / 60.0)
    else Null
  }

  /** Adds the `duration` column; the subtraction reads the dropoff column first, then the pickup column. */
  function CalculateDuration(f: Frame): (r: Result<Frame>)
    requires Valid(f)
    ensures r.Ok? <==> HasColumnOf(f.schema, DropoffColumn, {DatetimeType}) && HasColumnOf(f.schema, PickupColumn, {DatetimeType})
    ensures r.Err? ==>
      Some(r.error) == ColumnError(f.schema, DropoffColumn, {DatetimeType}) ||
      Some(r.error) == ColumnError(f.schema, PickupColumn, {DatetimeType})
    ensures r.Ok? ==>
      && Valid(r.value)
      && r.value.schema == Replace(f.schema, Field(DurationColumn, FloatType))
      && |r.value.rows| == |f.rows|
      && forall k :: 0 <= k < |f.rows| ==>
        && r.value.rows[k].Keys == f.rows[k].Keys + {DurationColumn}
        && (forall c :: c in f.rows[k] && c != DurationColumn ==> r.value.rows[k][c] == f.rows[k][c])
        && (r.value.rows[k][DurationColumn].Float? <==> f.rows[k][PickupColumn].Datetime? && f.rows[k][DropoffColumn].Datetime?)
        && (r.value.rows[k][DurationColumn].Float? ==>
              r.value.rows[k][DurationColumn].x * 60.0 == (f.rows[k][DropoffColumn].secs - f.rows[k][PickupColumn].secs) as real)
        && (r.value.rows[k][DurationColumn] == Null || r.value.rows[k][DurationColumn].Float?)
    ensures r.Ok? ==> r.value.rows == Apply(f.rows, SetCell(DurationColumn, DurationOf))
  {
    match ColumnError(f.schema, DropoffColumn, {DatetimeType})
    case Some(e) => Err(e)
    case None =>
      match ColumnError(f.schema, PickupColumn, {DatetimeType})
      case Some(e) => Err(e)
      case None =>
        forall k | 0 <= k < |f.rows|
          ensures PickupColumn in f.rows[k] && f.rows[k][PickupColumn] != Null ==> f.rows[k][PickupColumn].Datetime?
          ensures DropoffColumn in f.rows[k] && f.rows[k][DropoffColumn] != Null ==> f.rows[k][DropoffColumn].Datetime?
        {
          LookupTypes(f, PickupColumn, DatetimeType, k);
          LookupTypes(f, DropoffColumn, DatetimeType, k);
        }
        Ok(WithColumn(f, Field(DurationColumn, FloatType), DurationOf))
  }

  /** A trip whose dropoff precedes its pickup gets a negative duration; nothing is clamped. */
  lemma NegativeDurationKept(row: Row)
    requires PickupColumn in row && DropoffColumn in row
    requires row[PickupColumn].Datetime? && row[DropoffColumn].Datetime?
    ensures DurationOf(row).Float?
    ensures DurationOf(row).x < 0.0 <==> row[DropoffColumn].secs < row[PickupColumn].secs
  {
  }

  // ---------------------------------------------------------------------
  // filter_by_date_range
  // ---------------------------------------------------------------------

  /** Keeps the rows whose pickup time lies in `[start, end)`, in order. */
  function FilterByDateRange(f: Frame, start: int, end: int): (r: Result<Frame>)
    requires Valid(f)
    ensures r.Ok? <==> HasColumnOf(f.schema, PickupColumn, {DatetimeType})
    ensures r.Err? ==> Some(r.error) == ColumnError(f.schema, PickupColumn, {DatetimeType})
    ensures r.Ok? ==>
      && Valid(r.value) && r.value.schema == f.schema
      && r.value.rows == Keep(f.rows, DatetimeWindow(PickupColumn, start, end))
      && forall row: Row :: row in r.value.rows <==>
           row in f.rows && row[PickupColumn].Datetime? && start <= row[PickupColumn].secs < end
  {
    match ColumnError(f.schema, PickupColumn, {DatetimeType})
    case Some(e) => Err(e)
    case None =>
      var r := FilterRows(f, DatetimeWindow(PickupColumn, start, end));
      assert forall k :: 0 <= k < |f.rows| ==> PickupColumn in f.rows[k] by {
        forall k | 0 <= k < |f.rows| ensures PickupColumn in f.rows[k] {
          LookupTypes(f, PickupColumn, DatetimeType, k);
        }
      }
      Ok(r)
  }

  // ---------------------------------------------------------------------
  // filter_valid_durations
  // ---------------------------------------------------------------------

  /** `(duration > 0) & (duration <= 60)` on one cell; a null cell fails. */
  function ValidDuration(v: Value): (b: bool)
    ensures b ==> v.Int? || v.Float?
    ensures v.Int? ==> (b <==> 1 <= v.i <= 60)
    ensures v.Float? ==> (b <==> 0.0 < v.x <= 60.0)
  {
    match v
    case Int(i) => 0 < i <= 60
    case Float(x) => 0.0 < x <= 60.0
    case _ => false
  }

  function DurationFilter(): (p: Row -> bool)
    ensures forall row: Row :: p(row) <==> DurationColumn in row && ValidDuration(row[DurationColumn])
  {
    (row: Row) => DurationColumn in row && ValidDuration(row[DurationColumn])
  }

  /** Keeps the rows whose duration lies in (0, 60], in order; the column may hold ints or floats. */
  function FilterValidDurations(f: Frame): (r: Result<Frame>)
    requires Valid(f)
    ensures r.Ok? <==> HasColumnOf(f.schema, DurationColumn, {IntType, FloatType})
    ensures r.Err? ==> Some(r.error) == ColumnError(f.schema, DurationColumn, {IntType, FloatType})
    ensures r.Ok? ==>
      && Valid(r.value) && r.value.schema == f.schema
      && r.value.rows == Keep(f.rows, DurationFilter())
      && forall row: Row :: row in r.value.rows <==> row in f.rows && ValidDuration(row[DurationColumn])
  {
    match ColumnError(f.schema, DurationColumn, {IntType, FloatType})
    case Some(e) => Err(e)
    case None =>
      var r := FilterRows(f, DurationFilter());
      assert forall k :: 0 <= k < |f.rows| ==> DurationColumn in f.rows[k] by {
        forall k | 0 <= k < |f.rows| ensures DurationColumn in f.rows[k] {
          LookupTypes(f, DurationColumn, Lookup(f.schema, DurationColumn).value, k);
        }
      }
      Ok(r)
  }

  /** A duration computed from whole seconds is valid exactly when the trip lasts 1 to 3600 seconds. */
  lemma ValidDurationSeconds(pickup: int, dropoff: int)
    ensures ValidDuration(Float((dropoff - pickup) as real / 60.0)) <==> 0 < dropoff - pickup <= 3600
  {
  }

  // ---------------------------------------------------------------------
  // cast_categorical_columns
  // ---------------------------------------------------------------------

  /** The identifier columns `basic_preprocessing` turns into categories. */
  const DefaultCategorical: seq<string> :=
    ["VendorID", "RatecodeID", "store_and_fwd_flag", PickupLocationColumn, DropoffLocationColumn, "payment_type"]

  /** The column types whose text rendering this model covers. */
  const Renderable: set<DType> := {IntType, StrType, CatType}

  /** The cells whose text this model renders: the non-null cells of a renderable column. */
  predicate Renders(v: Value) {
    v.Int? || v.Str? || v.Cat?
  }

  /** `cast(pl.Utf8)` of an int, string or category cell: its decimal digits or its own text. */
  function Rendered(v: Value): (r: string)
    requires Renders(v)
    ensures v.Int? ==> Text.CanonicalDecimal(r) && Text.ParseDecimal(r) == Some(v.i)
    ensures v.Str? ==> r == v.s
    ensures v.Cat? ==> r == v.category
    ensures Categorize(v) == Cat(r)
  {
    match v
    case Int(i) =>
      Text.DecimalRoundTrip(i);
      Text.Decimal(i)
    case Str(s) => s
    case Cat(c) => c
  }

  /**
   * `cast(pl.Utf8).cast(pl.Categorical)` of one cell: an int becomes the
   * category of its decimal text, a string or category keeps its text, null
   * stays null. Cells of other types are refused before this is applied.
   */
  function Categorize(v: Value): (r: Value)
    ensures v.Int? ==> r.Cat? && Text.CanonicalDecimal(r.category) && Text.ParseDecimal(r.category) == Some(v.i)
    ensures v.Str? ==> r == Cat(v.s)
    ensures v.Cat? || v == Null ==> r == v
  {
    match v
    case Int(i) =>
      Text.DecimalRoundTrip(i);
      Cat(Text.Decimal(i))
    case Str(s) => Cat(s)
    case _ => v
  }

  predicate Distinct(cols: seq<string>) {
    forall i, j :: 0 <= i < j < |cols| ==> cols[i] != cols[j]
  }

  /**
   * The error `with_columns` raises for the cast list: a missing column, a
   * column of a type the model does not render, or a column named twice.
   */
  function CheckColumns(schema: seq<Field>, cols: seq<string>): (e: Option<Error>)
    ensures e.None? <==> Distinct(cols) && forall i :: 0 <= i < |cols| ==> HasColumnOf(schema, cols[i], Renderable)
    ensures e.Some? ==> e.value.column in cols
    ensures e.Some? && e.value.ColumnNotFound? ==> e.value.column !in Names(schema)
    ensures e.Some? && e.value.InvalidType? ==>
      e.value.column in Names(schema) && !HasColumnOf(schema, e.value.column, Renderable)
    ensures e.Some? && e.value.DuplicateColumn? ==>
      exists i, j :: 0 <= i < j < |cols| && cols[i] == e.value.column && cols[j] == e.value.column
  {
    if cols == [] then None
    else
      match ColumnError(schema, cols[0], Renderable)
      case Some(err) => Some(err)
      case None =>
        if cols[0] in cols[1..] then
          var j :| 0 <= j < |cols[1..]| && cols[1..][j] == cols[0];
          assert cols[j + 1] == cols[0];
          Some(DuplicateColumn(cols[0]))
        else
          var e := CheckColumns(schema, cols[1..]);
          assert forall i :: 0 < i < |cols| ==> cols[i] == cols[1..][i - 1];
          assert e.Some? && e.value.DuplicateColumn? ==>
            exists i, j :: 0 <= i < j < |cols| && cols[i] == e.value.column && cols[j] == e.value.column by {
            if e.Some? && e.value.DuplicateColumn? {
              var i, j :| 0 <= i < j < |cols[1..]| && cols[1..][i] == e.value.column && cols[1..][j] == e.value.column;
              assert cols[i + 1] == e.value.column && cols[j + 1] == e.value.column;
            }
          }
          e
  }

  /** The schema with the named columns turned into categoricals, in place. */
  function Retype(schema: seq<Field>, cols: set<string>): (r: seq<Field>)
    ensures |r| == |schema| && Names(r) == Names(schema)
    ensures forall i :: 0 <= i < |r| ==> r[i] == if schema[i].name in cols then Field(schema[i].name, CatType) else schema[i]
  {
    if schema == [] then []
    else
      var head := if schema[0].name in cols then Field(schema[0].name, CatType) else schema[0];
      var r := [head] + Retype(schema[1..], cols);
      assert r[1..] == Retype(schema[1..], cols);
      r
  }

  /** The row update that categorises the named cells. */
  function CastRow(cols: set<string>): Row -> Row {
    (row: Row) => map c | c in row :: if c in cols then Categorize(row[c]) else row[c]
  }

  /** Turns each listed column into a categorical of its text; every other column stays. */
  function CastCategorical(f: Frame, cols: seq<string> := DefaultCategorical): (r: Result<Frame>)
    requires Valid(f)
    ensures r.Ok? <==> CheckColumns(f.schema, cols).None?
    ensures r.Err? ==> Some(r.error) == CheckColumns(f.schema, cols)
    ensures r.Ok? ==>
      && Valid(r.value)
      && |r.value.schema| == |f.schema|
      && (forall i :: 0 <= i < |f.schema| ==>
            r.value.schema[i] == if f.schema[i].name in cols then Field(f.schema[i].name, CatType) else f.schema[i])
      && |r.value.rows| == |f.rows|
      && forall k :: 0 <= k < |f.rows| ==>
        && r.value.rows[k].Keys == f.rows[k].Keys
        && forall c :: c in f.rows[k] ==>
             r.value.rows[k][c] == if c in cols then Categorize(f.rows[k][c]) else f.rows[k][c]
    ensures r.Ok? ==> r.value.rows == Apply(f.rows, CastRow(set c | c in cols))
  {
    match CheckColumns(f.schema, cols)
    case Some(e) => Err(e)
    case None =>
      var names := set c | c in cols;
      forall c | c in names ensures HasColumnOf(f.schema, c, Renderable) {
        var j :| 0 <= j < |cols| && cols[j] == c;
      }
      CastValid(f, names);
      Ok(Frame(Retype(f.schema, names), Apply(f.rows, CastRow(names))))
  }

  /** Casting columns that all have renderable types keeps the frame well formed. */
  lemma CastValid(f: Frame, names: set<string>)
    requires Valid(f)
    requires forall c :: c in names ==> HasColumnOf(f.schema, c, Renderable)
    ensures Valid(Frame(Retype(f.schema, names), Apply(f.rows, CastRow(names))))
  {
    var schema := Retype(f.schema, names);
    var rows := Apply(f.rows, CastRow(names));
    forall k | 0 <= k < |rows| ensures Fits(schema, rows[k]) {
      CastRowFits(f, names, k);
    }
  }

  lemma CastRowFits(f: Frame, names: set<string>, k: nat)
    requires Valid(f) && k < |f.rows|
    requires forall c :: c in names ==> HasColumnOf(f.schema, c, Renderable)
    ensures Fits(Retype(f.schema, names), CastRow(names)(f.rows[k]))
  {
    var schema := Retype(f.schema, names);
    var row := CastRow(names)(f.rows[k]);
    assert Fits(f.schema, f.rows[k]);
    forall i | 0 <= i < |schema| ensures HasType(row[schema[i].name], schema[i].dtype) {
      var c := f.schema[i].name;
      if c in names {
        assert HasColumnOf(f.schema, c, Renderable);
        assert f.schema[i].dtype in Renderable;
      }
    }
  }

  /** A categorical cell or a null is left as it is by a second cast. */
  lemma CategorizeTwice(v: Value)
    ensures Categorize(Categorize(v)) == Categorize(v)
  {
  }

  /** Casting a row twice is casting it once. */
  lemma CastRowTwice(names: set<string>, row: Row)
    ensures CastRow(names)(CastRow(names)(row)) == CastRow(names)(row)
  {
    var once := CastRow(names)(row);
    forall c | c in once ensures CastRow(names)(once)[c] == once[c] {
      CategorizeTwice(row[c]);
    }
  }

  /** After a successful cast every listed column is categorical, so a second cast succeeds. */
  lemma CastAgainSucceeds(f: Frame, cols: seq<string>)
    requires Valid(f) && CastCategorical(f, cols).Ok?
    ensures CheckColumns(CastCategorical(f, cols).value.schema, cols).None?
  {
    var g := CastCategorical(f, cols).value;
    forall i | 0 <= i < |cols| ensures HasColumnOf(g.schema, cols[i], Renderable) {
      NamesIndex(g.schema, cols[i]);
      var j :| 0 <= j < |g.schema| && g.schema[j].name == cols[i];
      assert g.schema[j].dtype == CatType;
    }
  }

  /** Casting the same columns a second time changes nothing. */
  lemma CastCategoricalIdempotent(f: Frame, cols: seq<string>)
    requires Valid(f) && CastCategorical(f, cols).Ok?
    ensures CastCategorical(CastCategorical(f, cols).value, cols) == CastCategorical(f, cols)
  {
    var g := CastCategorical(f, cols).value;
    CastAgainSucceeds(f, cols);
    var h := CastCategorical(g, cols).value;
    forall i | 0 <= i < |g.schema| ensures h.schema[i] == g.schema[i] {
      assert f.schema[i].name == g.schema[i].name;
    }
    assert h.schema == g.schema;
    var names := set c | c in cols;
    forall k | 0 <= k < |g.rows| ensures h.rows[k] == g.rows[k] {
      CastRowTwice(names, f.rows[k]);
    }
    assert h.rows == g.rows;
  }

  // ---------------------------------------------------------------------
  // create_pickup_dropoff_pairs
  // ---------------------------------------------------------------------

  /** The pair key of two non-null location cells, pickup first. */
  function PairKey(pickup: Value, dropoff: Value): (r: Value)
    requires Renders(pickup) && Renders(dropoff)
    ensures r.Cat? && |r.category| == |Rendered(pickup)| + 1 + |Rendered(dropoff)|
    ensures r.category[..|Rendered(pickup)|] == Rendered(pickup) && r.category[|Rendered(pickup)|] == '_'
    ensures r.category[|Rendered(pickup)| + 1..] == Rendered(dropoff)
    ensures pickup.Int? && dropoff.Int? ==>
      && Text.ParseDecimal(r.category[..|Rendered(pickup)|]) == Some(pickup.i)
      && Text.ParseDecimal(r.category[|Rendered(pickup)| + 1..]) == Some(dropoff.i)
  {
    var a := Rendered(pickup);
    var b := Rendered(dropoff);
    var s := a + "_" + b;
    assert s[..|a|] == a && s[|a| + 1..] == b;
    Cat(s)
  }

  /**
   * `concat_str([PULocationID, DOLocationID], separator="_")` on one row;
   * null if either part is null. A location cell this model does not render
   * (a float or a datetime) gives null as well; no frame that
   * `CreatePickupDropoffPairs` accepts holds one.
   */
  function PairCell(row: Row): (r: Value)
    ensures r == Null || r.Cat?
    ensures r != Null <==>
      PickupLocationColumn in row && DropoffLocationColumn in row
      && Renders(row[PickupLocationColumn]) && Renders(row[DropoffLocationColumn])
    ensures r != Null ==> r == PairKey(row[PickupLocationColumn], row[DropoffLocationColumn])
  {
    if PickupLocationColumn in row && DropoffLocationColumn in row
       && Renders(row[PickupLocationColumn]) && Renders(row[DropoffLocationColumn])
    then PairKey(row[PickupLocationColumn], row[DropoffLocationColumn])
    else Null
  }

  /** Adds the categorical `pickup_dropoff_pair` column; concatenation reads the pickup column first. */
  function CreatePickupDropoffPairs(f: Frame): (r: Result<Frame>)
    requires Valid(f)
    ensures r.Ok? <==>
      HasColumnOf(f.schema, PickupLocationColumn, Renderable) && HasColumnOf(f.schema, DropoffLocationColumn, Renderable)
    ensures r.Err? ==>
      Some(r.error) == ColumnError(f.schema, PickupLocationColumn, Renderable) ||
      Some(r.error) == ColumnError(f.schema, DropoffLocationColumn, Renderable)
    ensures r.Ok? ==>
      && Valid(r.value)
      && r.value.schema == Replace(f.schema, Field(PairColumn, CatType))
      && |r.value.rows| == |f.rows|
      && forall k :: 0 <= k < |f.rows| ==>
        && r.value.rows[k].Keys == f.rows[k].Keys + {PairColumn}
        && (forall c :: c in f.rows[k] && c != PairColumn ==> r.value.rows[k][c] == f.rows[k][c])
        && PickupLocationColumn in f.rows[k] && DropoffLocationColumn in f.rows[k]
        && (f.rows[k][PickupLocationColumn] == Null || Renders(f.rows[k][PickupLocationColumn]))
        && (f.rows[k][DropoffLocationColumn] == Null || Renders(f.rows[k][DropoffLocationColumn]))
        && (r.value.rows[k][PairColumn] == Null <==>
              f.rows[k][PickupLocationColumn] == Null || f.rows[k][DropoffLocationColumn] == Null)
        && (r.value.rows[k][PairColumn] != Null ==>
              r.value.rows[k][PairColumn] == PairKey(f.rows[k][PickupLocationColumn], f.rows[k][DropoffLocationColumn]))
    ensures r.Ok? ==> r.value.rows == Apply(f.rows, SetCell(PairColumn, PairCell))
  {
    match ColumnError(f.schema, PickupLocationColumn, Renderable)
    case Some(e) => Err(e)
    case None =>
      match ColumnError(f.schema, DropoffLocationColumn, Renderable)
      case Some(e) => Err(e)
      case None =>
        forall k | 0 <= k < |f.rows|
          ensures PickupLocationColumn in f.rows[k] && DropoffLocationColumn in f.rows[k]
          ensures f.rows[k][PickupLocationColumn] == Null || Renders(f.rows[k][PickupLocationColumn])
          ensures f.rows[k][DropoffLocationColumn] == Null || Renders(f.rows[k][DropoffLocationColumn])
        {
          LookupTypes(f, PickupLocationColumn, Lookup(f.schema, PickupLocationColumn).value, k);
          LookupTypes(f, DropoffLocationColumn, Lookup(f.schema, DropoffLocationColumn).value, k);
        }
        Ok(WithColumn(f, Field(PairColumn, CatType), PairCell))
  }

  /** The key of two integer locations determines both of them, in order. */
  lemma PairKeyInjective(a: int, b: int, c: int, d: int)
    ensures PairKey(Int(a), Int(b)) == PairKey(Int(c), Int(d)) <==> a == c && b == d
  {
    if PairKey(Int(a), Int(b)) == PairKey(Int(c), Int(d)) {
      Text.DecimalNoUnderscore(a);
      Text.DecimalNoUnderscore(b);
      Text.DecimalNoUnderscore(c);
      Text.DecimalNoUnderscore(d);
      Text.SplitAtSeparator(Text.Decimal(a), Text.Decimal(b), Text.Decimal(c), Text.Decimal(d), '_');
      Text.DecimalInjective(a, c);
      Text.DecimalInjective(b, d);
    }
  }

  /** The key is order-sensitive: swapping two different locations gives a different key. */
  lemma PairKeyOrdered(a: int, b: int)
    requires a != b
    ensures PairKey(Int(a), Int(b)) != PairKey(Int(b), Int(a))
  {
    PairKeyInjective(a, b, b, a);
  }

  /** Categorising the locations first does not change the key. */
  lemma PairKeyAfterCast(pickup: Value, dropoff: Value)
    requires Renders(pickup) && Renders(dropoff)
    ensures PairKey(Categorize(pickup), Categorize(dropoff)) == PairKey(pickup, dropoff)
  {
  }

  // ---------------------------------------------------------------------
  // filter properties
  // ---------------------------------------------------------------------

  /** The date filter returns a subsequence of its input. */
  lemma FilterByDateRangeSubsequence(f: Frame, start: int, end: int)
    requires Valid(f) && FilterByDateRange(f, start, end).Ok?
    ensures SubsequenceOf(FilterByDateRange(f, start, end).value.rows, f.rows)
  {
    KeepIsSubsequence(f.rows, DatetimeWindow(PickupColumn, start, end));
  }

  /** Applying the date filter twice is applying it once. */
  lemma FilterByDateRangeIdempotent(f: Frame, start: int, end: int)
    requires Valid(f) && FilterByDateRange(f, start, end).Ok?
    ensures FilterByDateRange(FilterByDateRange(f, start, end).value, start, end) == FilterByDateRange(f, start, end)
  {
    KeepIdempotent(f.rows, DatetimeWindow(PickupColumn, start, end));
  }

  /** The duration filter returns a subsequence of its input. */
  lemma FilterValidDurationsSubsequence(f: Frame)
    requires Valid(f) && FilterValidDurations(f).Ok?
    ensures SubsequenceOf(FilterValidDurations(f).value.rows, f.rows)
  {
    KeepIsSubsequence(f.rows, DurationFilter());
  }

  /** Applying the duration filter twice is applying it once. */
  lemma FilterValidDurationsIdempotent(f: Frame)
    requires Valid(f) && FilterValidDurations(f).Ok?
    ensures FilterValidDurations(FilterValidDurations(f).value) == FilterValidDurations(f)
  {
    KeepIdempotent(f.rows, DurationFilter());
  }

  // ---------------------------------------------------------------------
  // basic_preprocessing
  // ---------------------------------------------------------------------

  /** duration, then the date filter, then the validity filter, then the casts, then the pair key. */
  function BasicPreprocessing(f: Frame, start: int, end: int): (r: Result<Frame>)
    requires Valid(f)
    ensures r.Ok? ==> Valid(r.value)
    ensures r.Ok? ==> r.value.schema == OutputSchema(f.schema)
  {
    var withDuration :- CalculateDuration(f);
    var inRange :- FilterByDateRange(withDuration, start, end);
    var valid :- FilterValidDurations(inRange);
    var categorical :- CastCategorical(valid);
    assert categorical.schema == Retype(valid.schema, set c | c in DefaultCategorical);
    CreatePickupDropoffPairs(categorical)
  }

  /**
   * The schema `basic_preprocessing` produces: `duration` as a float column,
   * the default identifier columns as categoricals where they stand, and the
   * categorical `pickup_dropoff_pair` column.
   */
  function OutputSchema(schema: seq<Field>): seq<Field>
    requires DistinctNames(schema)
  {
    Replace(Retype(Replace(schema, Field(DurationColumn, FloatType)), set c | c in DefaultCategorical), Field(PairColumn, CatType))
  }

  /** What the input schema must offer for the pipeline to succeed. */
  predicate PipelineApplies(schema: seq<Field>) {
    && HasColumnOf(schema, DropoffColumn, {DatetimeType})
    && HasColumnOf(schema, PickupColumn, {DatetimeType})
    && forall i :: 0 <= i < |DefaultCategorical| ==> HasColumnOf(schema, DefaultCategorical[i], Renderable)
  }

  /** Adding the duration column leaves the type of every other column as it was. */
  lemma DurationLookup(f: Frame, c: string)
    requires Valid(f) && CalculateDuration(f).Ok?
    ensures Lookup(CalculateDuration(f).value.schema, c) == if c == DurationColumn then Some(FloatType) else Lookup(f.schema, c)
  {
    LookupReplace(f.schema, Field(DurationColumn, FloatType), c);
  }

  /** A cast column is categorical afterwards. */
  lemma CastLookup(f: Frame, cols: seq<string>, c: string)
    requires Valid(f) && CastCategorical(f, cols).Ok? && c in cols
    ensures Lookup(CastCategorical(f, cols).value.schema, c) == Some(CatType)
  {
    var g := CastCategorical(f, cols).value;
    var j :| 0 <= j < |cols| && cols[j] == c;
    assert HasColumnOf(f.schema, cols[j], Renderable);
    NamesIndex(f.schema, c);
    var i :| 0 <= i < |f.schema| && f.schema[i].name == c;
    assert g.schema[i] == Field(c, CatType);
  }

  /** The default casts succeed on a frame whose columns other than `duration` have the types of `f`'s. */
  lemma CastDefaultSucceeds(f: Frame, g: Frame)
    requires Valid(f) && Valid(g)
    requires forall c :: c != DurationColumn ==> Lookup(g.schema, c) == Lookup(f.schema, c)
    ensures CastCategorical(g).Ok? <==>
      forall i :: 0 <= i < |DefaultCategorical| ==> HasColumnOf(f.schema, DefaultCategorical[i], Renderable)
  {
    DefaultCategoricalNames();
    forall i | 0 <= i < |DefaultCategorical|
      ensures HasColumnOf(g.schema, DefaultCategorical[i], Renderable) == HasColumnOf(f.schema, DefaultCategorical[i], Renderable)
    {
      assert DefaultCategorical[i] != DurationColumn;
    }
  }

  /** The default categorical columns are distinct and none of them is the duration. */
  lemma DefaultCategoricalNames()
    ensures Distinct(DefaultCategorical)
    ensures forall i :: 0 <= i < |DefaultCategorical| ==> DefaultCategorical[i] != DurationColumn
  {
  }

  /** The pipeline succeeds exactly when both timestamps are datetimes and the six identifier columns are renderable. */
  lemma BasicPreprocessingSucceeds(f: Frame, start: int, end: int)
    requires Valid(f)
    ensures BasicPreprocessing(f, start, end).Ok? <==> PipelineApplies(f.schema)
  {
    var r1 := CalculateDuration(f);
    if r1.Ok? {
      forall c ensures Lookup(r1.value.schema, c) == if c == DurationColumn then Some(FloatType) else Lookup(f.schema, c) {
        DurationLookup(f, c);
      }
      var r2 := FilterByDateRange(r1.value, start, end);
      var r3 := FilterValidDurations(r2.value);
      CastDefaultSucceeds(f, r3.value);
      var r4 := CastCategorical(r3.value);
      if r4.Ok? {
        CastLookup(r3.value, DefaultCategorical, PickupLocationColumn);
        CastLookup(r3.value, DefaultCategorical, DropoffLocationColumn);
      }
    }
  }

  /** The filter the two filters amount to, read on the raw timestamps. */
  function RawFilter(start: int, end: int): Row -> bool {
    (row: Row) =>
      && PickupColumn in row && DropoffColumn in row
      && row[PickupColumn].Datetime? && row[DropoffColumn].Datetime?
      && start <= row[PickupColumn].secs < end
      && 0 < row[DropoffColumn].secs - row[PickupColumn].secs <= 3600
  }

  /** The row steps of the pipeline that change cells. */
  function AddDuration(): Row -> Row {
    SetCell(DurationColumn, DurationOf)
  }

  function CastDefault(): Row -> Row {
    CastRow(set c | c in DefaultCategorical)
  }

  function AddPair(): Row -> Row {
    SetCell(PairColumn, PairCell)
  }

  /** What the pipeline does to one surviving row. */
  function PreprocessRow(row: Row): Row {
    AddPair()(CastDefault()(AddDuration()(row)))
  }

  /** On one row, the two filters read after the duration map are the raw-timestamp filter before it. */
  lemma RawFilterAgrees(row: Row, start: int, end: int)
    ensures After(SetCell(DurationColumn, DurationOf), Both(DatetimeWindow(PickupColumn, start, end), DurationFilter()))(row)
      == RawFilter(start, end)(row)
  {
    var updated := AddDuration()(row);
    assert updated == row[DurationColumn := DurationOf(row)];
    assert DurationFilter()(updated) == ValidDuration(DurationOf(row));
    assert DatetimeWindow(PickupColumn, start, end)(updated) ==
      (PickupColumn in row && row[PickupColumn].Datetime? && start <= row[PickupColumn].secs < end);
    if PickupColumn in row && DropoffColumn in row && row[PickupColumn].Datetime? && row[DropoffColumn].Datetime? {
      ValidDurationSeconds(row[PickupColumn].secs, row[DropoffColumn].secs);
    }
  }

  /** The two filters after the duration map are one filter on the raw timestamps before it. */
  lemma FilterFusion(rows: seq<Row>, start: int, end: int)
    ensures Keep(Keep(Apply(rows, AddDuration()), DatetimeWindow(PickupColumn, start, end)), DurationFilter())
        == Apply(Keep(rows, RawFilter(start, end)), AddDuration())
  {
    var window := DatetimeWindow(PickupColumn, start, end);
    var both := Both(window, DurationFilter());
    KeepKeep(Apply(rows, AddDuration()), window, DurationFilter());
    KeepApply(rows, AddDuration(), both);
    forall k | 0 <= k < |rows| ensures After(AddDuration(), both)(rows[k]) == RawFilter(start, end)(rows[k]) {
      RawFilterAgrees(rows[k], start, end);
    }
    KeepCongruent(rows, After(AddDuration(), both), RawFilter(start, end));
  }

  /** The three row maps of the pipeline, one after the other, are `PreprocessRow`. */
  lemma MapFusion(rows: seq<Row>)
    ensures Apply(Apply(Apply(rows, AddDuration()), CastDefault()), AddPair()) == Apply(rows, PreprocessRow)
  {
    var out := Apply(Apply(Apply(rows, AddDuration()), CastDefault()), AddPair());
    assert |out| == |rows|;
    forall k | 0 <= k < |rows| ensures out[k] == PreprocessRow(rows[k]) {
    }
  }

  /**
   * On a frame offering the pipeline's columns, the pipeline succeeds and
   * keeps exactly the input rows, in input order, whose pickup
   * lies in `[start, end)` and whose trip lasts more than 0 and at most 3600
   * seconds, and transforms each of them by `PreprocessRow`.
   */
  lemma BasicPreprocessingRows(f: Frame, start: int, end: int)
    requires Valid(f) && PipelineApplies(f.schema)
    ensures BasicPreprocessing(f, start, end).Ok?
    ensures BasicPreprocessing(f, start, end).value.rows == Apply(Keep(f.rows, RawFilter(start, end)), PreprocessRow)
  {
    BasicPreprocessingSucceeds(f, start, end);
    var f1 := CalculateDuration(f).value;
    var f2 := FilterByDateRange(f1, start, end).value;
    var f3 := FilterValidDurations(f2).value;
    var f4 := CastCategorical(f3).value;
    assert f4.rows == Apply(f3.rows, CastDefault());
    FilterFusion(f.rows, start, end);
    MapFusion(Keep(f.rows, RawFilter(start, end)));
  }

  // ---------------------------------------------------------------------
  // worked examples
  // ---------------------------------------------------------------------

  /** A row holding only a pickup and a dropoff time, in seconds since the epoch. */
  function Trip(pickup: int, dropoff: int): Row {
    map[PickupColumn := Datetime(pickup), DropoffColumn := Datetime(dropoff)]
  }

  /** 2025-01-01 00:00:00 and 2025-02-01 00:00:00 UTC. */
  const January2025 := 1735689600
  const February2025 := 1738368000

  /** Durations of 15 and -10 minutes: the sign of the difference is kept. */
  lemma DurationExamples()
    ensures DurationOf(Trip(January2025 + 36000, January2025 + 36900)) == Float(15.0)
    ensures DurationOf(Trip(January2025 + 137700, January2025 + 137100)) == Float(-10.0)
  {
  }

  /** A duration of 0 is dropped, 60 is kept, 75 and -10 are dropped. */
  lemma ValidDurationBoundaries()
    ensures !ValidDuration(Int(0)) && ValidDuration(Int(60)) && !ValidDuration(Int(75)) && !ValidDuration(Int(-10))
    ensures ValidDuration(Float(15.0)) && !ValidDuration(Float(0.0)) && ValidDuration(Float(60.0))
    ensures !ValidDuration(Null)
  {
  }

  /** A pickup exactly at the start of the window is kept; one exactly at its end is dropped. */
  lemma DateRangeBoundaries(start: int, end: int, dropoff: int)
    requires start < end
    ensures DatetimeWindow(PickupColumn, start, end)(Trip(start, dropoff))
    ensures !DatetimeWindow(PickupColumn, start, end)(Trip(end, dropoff))
  {
  }

  /** 100 becomes the category "100"; the flag "N" stays "N". */
  lemma CategorizeExamples()
    ensures Categorize(Int(100)) == Cat("100") && Categorize(Str("N")) == Cat("N")
  {
    assert Text.Digits(100) == "100";
  }

  /** The fixture's first two trips get the keys "100_110" and "200_250", before or after the casts. */
  lemma PairKeyExamples()
    ensures PairKey(Int(100), Int(110)) == Cat("100_110")
    ensures PairKey(Cat("200"), Cat("250")) == Cat("200_250")
  {
    assert Text.Digits(100) == "100";
    assert Text.Digits(110) == "110";
  }
}

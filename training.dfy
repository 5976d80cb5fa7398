/**
 * The temporal train/test split and the flattening of the target frames.
 * The model fitting, the vectorizer and the metrics are library calls and
 * are not part of this model.
 */
module Training {
  import opened Options
  import opened Frames

  /**
   * The four frames `time_series_train_test_split` returns, as each would
   * collect: the feature frames never read the target column, so only the
   * target frames can fail on it.
   */
  datatype Split = Split(xTrain: Frame, xTest: Frame, yTrain: Result<Frame>, yTest: Result<Frame>)

  /** The end of the training window: `test_start` when `train_end` is omitted. */
  function TrainEnd(trainEnd: Option<int>, testStart: int): (e: int)
    ensures trainEnd.None? ==> e == testStart
    ensures trainEnd.Some? ==> e == trainEnd.value
  {
    if trainEnd.None? then testStart else trainEnd.value
  }

  /** `select(c)` of a frame that may lack `c`: polars raises ColumnNotFound when it is collected. */
  function SelectTarget(f: Frame, name: string): (r: Result<Frame>)
    requires Valid(f)
    ensures r.Ok? <==> name in Names(f.schema)
    ensures r.Err? ==> r.error == ColumnNotFound(name)
    ensures r.Ok? ==> Valid(r.value) && Names(r.value.schema) == {name}
    ensures r.Ok? ==> r.value == SelectColumn(f, name)
  {
    if name !in Names(f.schema) then Err(ColumnNotFound(name))
    else
      var y := SelectColumn(f, name);
      assert Names(y.schema) == {name} by {
        assert y.schema == [y.schema[0]];
      }
      Ok(y)
  }

  /**
   * Filters the training window `[train_start, train_end)` and the test window
   * `[test_start, test_end)` of the same frame, then moves the target column
   * out of both into one-column frames. The windows are not validated. A
   * timestamp column that is missing or not a datetime fails all four frames;
   * a missing target column fails only the two target frames.
   */
  function TimeSeriesTrainTestSplit(
    f: Frame, trainStart: int, testStart: int, testEnd: int, trainEnd: Option<int> := None,
    tsColumn: string := PickupColumn, targetColumn: string := DurationColumn): (r: Result<Split>)
    requires Valid(f)
    ensures r.Ok? <==> HasColumnOf(f.schema, tsColumn, {DatetimeType})
    ensures r.Err? ==> Some(r.error) == ColumnError(f.schema, tsColumn, {DatetimeType})
    ensures r.Ok? ==>
      && Valid(r.value.xTrain) && Valid(r.value.xTest)
      && r.value.xTrain.schema == RemoveField(f.schema, targetColumn)
      && r.value.xTest.schema == RemoveField(f.schema, targetColumn)
      && Names(r.value.xTrain.schema) == Names(f.schema) - {targetColumn}
      && Names(r.value.xTest.schema) == Names(f.schema) - {targetColumn}
    ensures r.Ok? ==>
      && (r.value.yTrain.Ok? <==> targetColumn in Names(f.schema))
      && (r.value.yTest.Ok? <==> targetColumn in Names(f.schema))
      && (r.value.yTrain.Err? ==> r.value.yTrain.error == ColumnNotFound(targetColumn))
      && (r.value.yTest.Err? ==> r.value.yTest.error == ColumnNotFound(targetColumn))
    ensures r.Ok? && targetColumn in Names(f.schema) ==>
      && Valid(r.value.yTrain.value) && Valid(r.value.yTest.value)
      && Names(r.value.yTrain.value.schema) == {targetColumn} && Names(r.value.yTest.value.schema) == {targetColumn}
      && r.value.yTrain.value.schema == [Field(targetColumn, Lookup(f.schema, targetColumn).value)]
      && r.value.yTest.value.schema == [Field(targetColumn, Lookup(f.schema, targetColumn).value)]
  {
    match ColumnError(f.schema, tsColumn, {DatetimeType})
    case Some(e) => Err(e)
    case None =>
      var train := FilterRows(f, DatetimeWindow(tsColumn, trainStart, TrainEnd(trainEnd, testStart)));
      var test := FilterRows(f, DatetimeWindow(tsColumn, testStart, testEnd));
      Ok(Split(
        ExcludeColumn(train, targetColumn), ExcludeColumn(test, targetColumn),
        SelectTarget(train, targetColumn), SelectTarget(test, targetColumn)))
  }

  /** Omitting `train_end` is passing `train_end = test_start`. */
  lemma DefaultTrainEnd(f: Frame, trainStart: int, testStart: int, testEnd: int, tsColumn: string, targetColumn: string)
    requires Valid(f)
    ensures TimeSeriesTrainTestSplit(f, trainStart, testStart, testEnd, None, tsColumn, targetColumn)
         == TimeSeriesTrainTestSplit(f, trainStart, testStart, testEnd, Some(testStart), tsColumn, targetColumn)
  {
  }

  /**
   * The training rows: the input rows whose timestamp lies in the training
   * window, in input order. The features are those rows without the target
   * cell, the target frame holds exactly that cell, row by row, so putting the
   * two back together gives the window's rows.
   */
  lemma TrainRows(
    f: Frame, trainStart: int, testStart: int, testEnd: int, trainEnd: Option<int>, tsColumn: string, targetColumn: string)
    requires Valid(f)
    requires TimeSeriesTrainTestSplit(f, trainStart, testStart, testEnd, trainEnd, tsColumn, targetColumn).Ok?
    ensures var s := TimeSeriesTrainTestSplit(f, trainStart, testStart, testEnd, trainEnd, tsColumn, targetColumn).value;
      var window := Keep(f.rows, DatetimeWindow(tsColumn, trainStart, TrainEnd(trainEnd, testStart)));
      && |s.xTrain.rows| == |window|
      && (forall k :: 0 <= k < |window| ==> s.xTrain.rows[k] == window[k] - {targetColumn})
      && (s.yTrain.Ok? ==>
        && |s.yTrain.value.rows| == |window|
        && forall k :: 0 <= k < |window| ==>
          && s.yTrain.value.rows[k] == map[targetColumn := window[k][targetColumn]]
          && s.xTrain.rows[k][targetColumn := s.yTrain.value.rows[k][targetColumn]] == window[k])
  {
    var s := TimeSeriesTrainTestSplit(f, trainStart, testStart, testEnd, trainEnd, tsColumn, targetColumn).value;
    var window := Keep(f.rows, DatetimeWindow(tsColumn, trainStart, TrainEnd(trainEnd, testStart)));
    if s.yTrain.Ok? {
      forall k | 0 <= k < |window| ensures s.xTrain.rows[k][targetColumn := s.yTrain.value.rows[k][targetColumn]] == window[k] {
        Recombine(window[k], targetColumn);
      }
    }
  }

  /** The test rows, by the same construction over the test window. */
  lemma TestRows(
    f: Frame, trainStart: int, testStart: int, testEnd: int, trainEnd: Option<int>, tsColumn: string, targetColumn: string)
    requires Valid(f)
    requires TimeSeriesTrainTestSplit(f, trainStart, testStart, testEnd, trainEnd, tsColumn, targetColumn).Ok?
    ensures var s := TimeSeriesTrainTestSplit(f, trainStart, testStart, testEnd, trainEnd, tsColumn, targetColumn).value;
      var window := Keep(f.rows, DatetimeWindow(tsColumn, testStart, testEnd));
      && |s.xTest.rows| == |window|
      && (forall k :: 0 <= k < |window| ==> s.xTest.rows[k] == window[k] - {targetColumn})
      && (s.yTest.Ok? ==>
        && |s.yTest.value.rows| == |window|
        && forall k :: 0 <= k < |window| ==>
          && s.yTest.value.rows[k] == map[targetColumn := window[k][targetColumn]]
          && s.xTest.rows[k][targetColumn := s.yTest.value.rows[k][targetColumn]] == window[k])
  {
    var s := TimeSeriesTrainTestSplit(f, trainStart, testStart, testEnd, trainEnd, tsColumn, targetColumn).value;
    var window := Keep(f.rows, DatetimeWindow(tsColumn, testStart, testEnd));
    if s.yTest.Ok? {
      forall k | 0 <= k < |window| ensures s.xTest.rows[k][targetColumn := s.yTest.value.rows[k][targetColumn]] == window[k] {
        Recombine(window[k], targetColumn);
      }
    }
  }

  /**
   * Without the target column the split still yields both feature frames,
   * which are then the window rows themselves; only the target frames fail.
   */
  lemma MissingTargetSplit(
    f: Frame, trainStart: int, testStart: int, testEnd: int, trainEnd: Option<int>, tsColumn: string, targetColumn: string)
    requires Valid(f) && HasColumnOf(f.schema, tsColumn, {DatetimeType}) && targetColumn !in Names(f.schema)
    ensures var r := TimeSeriesTrainTestSplit(f, trainStart, testStart, testEnd, trainEnd, tsColumn, targetColumn);
      && r.Ok?
      && r.value.xTrain.rows == Keep(f.rows, DatetimeWindow(tsColumn, trainStart, TrainEnd(trainEnd, testStart)))
      && r.value.xTest.rows == Keep(f.rows, DatetimeWindow(tsColumn, testStart, testEnd))
      && r.value.yTrain == Err(ColumnNotFound(targetColumn)) && r.value.yTest == Err(ColumnNotFound(targetColumn))
  {
    var s := TimeSeriesTrainTestSplit(f, trainStart, testStart, testEnd, trainEnd, tsColumn, targetColumn).value;
    TrainRows(f, trainStart, testStart, testEnd, trainEnd, tsColumn, targetColumn);
    TestRows(f, trainStart, testStart, testEnd, trainEnd, tsColumn, targetColumn);
    NoTargetInKept(f, DatetimeWindow(tsColumn, trainStart, TrainEnd(trainEnd, testStart)), targetColumn);
    NoTargetInKept(f, DatetimeWindow(tsColumn, testStart, testEnd), targetColumn);
  }

  /** Removing a column a frame lacks leaves each kept row as it is. */
  lemma NoTargetInKept(f: Frame, p: Row -> bool, c: string)
    requires Valid(f) && c !in Names(f.schema)
    ensures forall k :: 0 <= k < |Keep(f.rows, p)| ==> Keep(f.rows, p)[k] - {c} == Keep(f.rows, p)[k]
  {
    var w := Keep(f.rows, p);
    forall k | 0 <= k < |w| ensures w[k] - {c} == w[k] {
      assert w[k] in f.rows;
      var j :| 0 <= j < |f.rows| && f.rows[j] == w[k];
      assert Fits(f.schema, f.rows[j]);
    }
  }

  /** Removing a present cell and putting it back restores the row. */
  lemma Recombine(row: Row, c: string)
    requires c in row
    ensures (row - {c})[c := map[c := row[c]][c]] == row
  {
  }

  /** A window holds exactly the input rows whose timestamp falls in it; no row is duplicated or re-sorted. */
  lemma WindowMembers(f: Frame, tsColumn: string, start: int, end: int)
    ensures forall row: Row :: row in Keep(f.rows, DatetimeWindow(tsColumn, start, end)) <==>
      row in f.rows && tsColumn in row && row[tsColumn].Datetime? && start <= row[tsColumn].secs < end
    ensures SubsequenceOf(Keep(f.rows, DatetimeWindow(tsColumn, start, end)), f.rows)
  {
    KeepIsSubsequence(f.rows, DatetimeWindow(tsColumn, start, end));
  }

  /** With `train_end <= test_start` no input row lands in both the training and the test window. */
  lemma WindowsDisjoint(f: Frame, tsColumn: string, trainStart: int, trainEnd: int, testStart: int, testEnd: int)
    requires trainEnd <= testStart
    ensures forall row :: row in Keep(f.rows, DatetimeWindow(tsColumn, trainStart, trainEnd)) ==>
      row !in Keep(f.rows, DatetimeWindow(tsColumn, testStart, testEnd))
  {
  }

  /** An empty or inverted window yields no rows rather than an error. */
  lemma InvertedWindowEmpty(f: Frame, tsColumn: string, start: int, end: int)
    requires end <= start
    ensures Keep(f.rows, DatetimeWindow(tsColumn, start, end)) == []
  {
    KeepNone(f.rows, DatetimeWindow(tsColumn, start, end));
  }

  /** A row holding only a pickup time. */
  function Pickup(t: int): Row {
    map[PickupColumn := Datetime(t)]
  }

  /** The fixture's pickups: 2025-01-01 10:00 and 11:30, 2024-12-31 23:45, 2026-01-01 00:00, 2025-01-02 14:15. */
  function FixturePickups(): seq<Row> {
    [Pickup(1735725600), Pickup(1735731000), Pickup(1735688700), Pickup(1767225600), Pickup(1735827300)]
  }

  /** A training window of 2024-12-31 to 2025-01-02 takes the first three fixture rows. */
  lemma TrainWindowExample()
    ensures Keep(FixturePickups(), DatetimeWindow(PickupColumn, 1735603200, 1735776000)) == FixturePickups()[..3]
  {
    var rows := FixturePickups();
    var keep := DatetimeWindow(PickupColumn, 1735603200, 1735776000);
    var inside, after := rows[..3], rows[3..];
    assert rows == inside + after;
    assert keep(rows[0]) && keep(rows[1]) && keep(rows[2]) && !keep(rows[3]) && !keep(rows[4]);
    KeepAll(inside, keep);
    KeepNone(after, keep);
    KeepAppend(inside, after, keep);
  }

  /** A test window of 2026-01-01 to 2026-01-03 takes only the fourth fixture row. */
  lemma TestWindowExample()
    ensures Keep(FixturePickups(), DatetimeWindow(PickupColumn, 1767225600, 1767398400)) == [FixturePickups()[3]]
  {
    var rows := FixturePickups();
    var keep := DatetimeWindow(PickupColumn, 1767225600, 1767398400);
    var before, inside, after := rows[..3], rows[3..4], rows[4..];
    assert rows == before + inside + after;
    assert !keep(rows[0]) && !keep(rows[1]) && !keep(rows[2]) && keep(rows[3]) && !keep(rows[4]);
    KeepNone(before, keep);
    KeepAll(inside, keep);
    KeepNone(after, keep);
    KeepAppend(before, inside, keep);
    KeepAppend(before + inside, after, keep);
  }

  /** With the default training end at 2025-01-02, the test window up to 2026-01-03 takes the last two rows. */
  lemma DefaultTestWindowExample()
    ensures Keep(FixturePickups(), DatetimeWindow(PickupColumn, 1735776000, 1767398400)) == FixturePickups()[3..]
  {
    var rows := FixturePickups();
    var keep := DatetimeWindow(PickupColumn, 1735776000, 1767398400);
    var before, inside := rows[..3], rows[3..];
    assert rows == before + inside;
    assert !keep(rows[0]) && !keep(rows[1]) && !keep(rows[2]) && keep(rows[3]) && keep(rows[4]);
    KeepNone(before, keep);
    KeepAll(inside, keep);
    KeepAppend(before, inside, keep);
  }

  // ---------------------------------------------------------------------
  // vectorize_target
  // ---------------------------------------------------------------------

  /** The cell of a row under a column name; a frame that fits its schema has every one. */
  function Cell(row: Row, name: string): Value {
    if name in row then row[name] else Null
  }

  /** The cells of one row in schema order. */
  function RowValues(schema: seq<Field>, row: Row): (r: seq<Value>)
    ensures |r| == |schema| && forall i :: 0 <= i < |schema| ==> r[i] == Cell(row, schema[i].name)
  {
    if schema == [] then [] else [Cell(row, schema[0].name)] + RowValues(schema[1..], row)
  }

  /** The rows' cell lists joined end to end. */
  function Concat<T>(xs: seq<seq<T>>): seq<T> {
    if xs == [] then [] else xs[0] + Concat(xs[1..])
  }

  /** The row-to-cells function of a schema. */
  function ValuesIn(schema: seq<Field>): Row -> seq<Value> {
    (row: Row) => RowValues(schema, row)
  }

  /**
   * `collect().to_numpy().ravel()` of a frame: the cells row after row, each
   * row in schema order, rows * columns cells in all.
   */
  function Ravel(f: Frame): (r: seq<Value>)
    requires Valid(f)
    ensures |r| == |f.rows| * |f.schema|
  {
    ConcatLength(Apply(f.rows, ValuesIn(f.schema)), |f.schema|);
    TimesIsProduct(|f.rows|, |f.schema|);
    Concat(Apply(f.rows, ValuesIn(f.schema)))
  }

  /** `k * w` by repeated addition, so that positions in the flat array stay linear. */
  function Times(k: nat, w: nat): nat {
    if k == 0 then 0 else w + Times(k - 1, w)
  }

  lemma {:induction false} TimesIsProduct(k: nat, w: nat)
    ensures Times(k, w) == k * w
  {
    if k > 0 {
      TimesIsProduct(k - 1, w);
      MulStep(k, w);
    }
  }

  lemma MulStep(k: nat, w: nat)
    requires k > 0
    ensures k * w == w + (k - 1) * w
  {
  }

  /** Joining lists all of length w gives Times(count, w) elements. */
  lemma {:induction false} ConcatLength<T>(xs: seq<seq<T>>, w: nat)
    requires forall k :: 0 <= k < |xs| ==> |xs[k]| == w
    ensures |Concat(xs)| == Times(|xs|, w)
  {
    if xs != [] {
      assert forall k :: 0 <= k < |xs[1..]| ==> xs[1..][k] == xs[k + 1];
      ConcatLength(xs[1..], w);
    }
  }

  /** Element i of list k sits at position k * w + i of the joined list. */
  lemma {:induction false} ConcatCell<T>(xs: seq<seq<T>>, w: nat, k: nat, i: nat)
    requires forall k :: 0 <= k < |xs| ==> |xs[k]| == w
    requires k < |xs| && i < w
    ensures Times(k, w) + i < |Concat(xs)| && Concat(xs)[Times(k, w) + i] == xs[k][i]
    decreases k
  {
    assert forall l :: 0 <= l < |xs[1..]| ==> xs[1..][l] == xs[l + 1];
    ConcatLength(xs[1..], w);
    if k > 0 {
      ConcatCell(xs[1..], w, k - 1, i);
      assert (xs[0] + Concat(xs[1..]))[w + Times(k - 1, w) + i] == Concat(xs[1..])[Times(k - 1, w) + i];
    }
  }

  /** The flat array is row-major: cell (k, i) sits at position k * width + i. */
  lemma RavelRowMajor(f: Frame, k: nat, i: nat)
    requires Valid(f) && k < |f.rows| && i < |f.schema|
    ensures k * |f.schema| + i < |Ravel(f)|
    ensures Ravel(f)[k * |f.schema| + i] == f.rows[k][f.schema[i].name]
  {
    RavelCell(f, k, i);
    TimesIsProduct(k, |f.schema|);
    var pos := Times(k, |f.schema|) + i;
    assert k * |f.schema| + i == pos;
  }

  /** Cell (k, i) in the flat array, at the position counted by repeated addition. */
  lemma RavelCell(f: Frame, k: nat, i: nat)
    requires Valid(f) && k < |f.rows| && i < |f.schema|
    ensures Times(k, |f.schema|) + i < |Ravel(f)|
    ensures Ravel(f)[Times(k, |f.schema|) + i] == f.rows[k][f.schema[i].name]
  {
    var xs := Apply(f.rows, ValuesIn(f.schema));
    ConcatCell(xs, |f.schema|, k, i);
    assert xs[k] == RowValues(f.schema, f.rows[k]);
    assert Fits(f.schema, f.rows[k]);
    assert f.schema[i].name in Names(f.schema);
  }

  /** For a one-column target frame the flat array is that column, in row order. */
  lemma RavelSingleColumn(f: Frame)
    requires Valid(f) && |f.schema| == 1
    ensures |Ravel(f)| == |f.rows|
    ensures forall k :: 0 <= k < |f.rows| ==> Ravel(f)[k] == f.rows[k][f.schema[0].name]
  {
    forall k | 0 <= k < |f.rows| ensures Ravel(f)[k] == f.rows[k][f.schema[0].name] {
      RavelRowMajor(f, k, 0);
    }
  }

  /** The training and test targets as flat arrays. */
  function VectorizeTarget(trainTarget: Frame, testTarget: Frame): (r: (seq<Value>, seq<Value>))
    requires Valid(trainTarget) && Valid(testTarget)
    ensures |r.0| == |trainTarget.rows| * |trainTarget.schema|
    ensures |r.1| == |testTarget.rows| * |testTarget.schema|
  {
    (Ravel(trainTarget), Ravel(testTarget))
  }

  /** A one-column frame of integer durations. */
  function Durations(ds: seq<int>): (f: Frame)
    ensures Valid(f)
  {
    var schema := [Field(DurationColumn, IntType)];
    assert Names(schema) == {DurationColumn};
    Frame(schema, Apply(ds, (d: int) => map[DurationColumn := Int(d)]))
  }

  /** The durations [15, 30, 45] and [75, -10] come out as flat arrays in the same order. */
  lemma VectorizeTargetExample()
    ensures VectorizeTarget(Durations([15, 30, 45]), Durations([75, -10])) ==
      ([Int(15), Int(30), Int(45)], [Int(75), Int(-10)])
  {
    var train := Durations([15, 30, 45]);
    var test := Durations([75, -10]);
    RavelSingleColumn(train);
    RavelSingleColumn(test);
    assert Ravel(train) == [Int(15), Int(30), Int(45)] by {
      assert train.rows[0][DurationColumn] == Int(15);
      assert train.rows[1][DurationColumn] == Int(30);
      assert train.rows[2][DurationColumn] == Int(45);
    }
    assert Ravel(test) == [Int(75), Int(-10)] by {
      assert test.rows[0][DurationColumn] == Int(75);
      assert test.rows[1][DurationColumn] == Int(-10);
    }
  }
}

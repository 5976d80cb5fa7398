/**
 * A materialised data frame in the style of polars: an ordered schema of
 * named, typed columns and a sequence of rows. A row maps every column name
 * of the schema to a cell of that column's type (or null). Lazy frames are
 * modelled by the frame they would collect to.
 */
module Frames {
  import opened Options

  /** The column types the core meets. */
  datatype DType = IntType | FloatType | StrType | CatType | DatetimeType

  /** A cell. A datetime is a whole number of seconds since the epoch. */
  datatype Value =
    | Null
    | Int(i: int)
    | Float(x: real)
    | Str(s: string)
    | Cat(category: string)
    | Datetime(secs: int)

  predicate HasType(v: Value, t: DType) {
    match v
    case Null => true
    case Int(_) => t == IntType
    case Float(_) => t == FloatType
    case Str(_) => t == StrType
    case Cat(_) => t == CatType
    case Datetime(_) => t == DatetimeType
  }

  datatype Field = Field(name: string, dtype: DType)

  type Row = map<string, Value>

  datatype Frame = Frame(schema: seq<Field>, rows: seq<Row>)

  /** The failures a frame operation raises when it is collected. */
  datatype Error =
    | ColumnNotFound(column: string)
    | InvalidType(column: string)
    | DuplicateColumn(column: string)

  datatype Result<T> = Ok(value: T) | Err(error: Error) {
    predicate IsFailure() {
      Err?
    }

    function PropagateFailure<U>(): Result<U>
      requires Err?
    {
      Err(error)
    }

    function Extract(): T
      requires Ok?
    {
      value
    }
  }

  /** Column names of the raw NYC yellow-taxi schema used by the core. */
  const PickupColumn := "tpep_pickup_datetime"
  const DropoffColumn := "tpep_dropoff_datetime"
  const DurationColumn := "duration"
  const PickupLocationColumn := "PULocationID"
  const DropoffLocationColumn := "DOLocationID"
  const PairColumn := "pickup_dropoff_pair"

  function Names(schema: seq<Field>): (r: set<string>)
    ensures forall i :: 0 <= i < |schema| ==> schema[i].name in r
  {
    if schema == [] then {} else {schema[0].name} + Names(schema[1..])
  }

  /** A name is in the schema exactly when some field carries it. */
  lemma {:induction false} NamesIndex(schema: seq<Field>, name: string)
    ensures name in Names(schema) <==> exists i :: 0 <= i < |schema| && schema[i].name == name
  {
    if schema != [] {
      NamesIndex(schema[1..], name);
      if name in Names(schema[1..]) {
        var j :| 0 <= j < |schema[1..]| && schema[1..][j].name == name;
        assert schema[j + 1].name == name;
      }
      if exists i :: 0 <= i < |schema| && schema[i].name == name {
        var i :| 0 <= i < |schema| && schema[i].name == name;
        if i > 0 {
          assert schema[1..][i - 1].name == name;
        }
      }
    }
  }

  predicate DistinctNames(schema: seq<Field>) {
    forall i, j :: 0 <= i < j < |schema| ==> schema[i].name != schema[j].name
  }

  /** Distinct names, read from the front: the head's name does not recur in the tail. */
  lemma DistinctCons(schema: seq<Field>)
    requires schema != []
    ensures DistinctNames(schema) <==> DistinctNames(schema[1..]) && schema[0].name !in Names(schema[1..])
  {
    NamesIndex(schema[1..], schema[0].name);
    if DistinctNames(schema[1..]) && schema[0].name !in Names(schema[1..]) {
      forall i, j | 0 <= i < j < |schema| ensures schema[i].name != schema[j].name {
        if i > 0 {
          assert schema[i].name == schema[1..][i - 1].name;
        }
        assert schema[j].name == schema[1..][j - 1].name;
      }
    }
    if DistinctNames(schema) {
      forall i, j | 0 <= i < j < |schema[1..]| ensures schema[1..][i].name != schema[1..][j].name {
        assert schema[1..][i] == schema[i + 1] && schema[1..][j] == schema[j + 1];
      }
    }
  }

  /** A row fits a schema when it has exactly the schema's columns, each well typed. */
  predicate Fits(schema: seq<Field>, r: Row) {
    && r.Keys == Names(schema)
    && forall i :: 0 <= i < |schema| ==> schema[i].name in r && HasType(r[schema[i].name], schema[i].dtype)
  }

  predicate Valid(f: Frame) {
    && DistinctNames(f.schema)
    && forall k :: 0 <= k < |f.rows| ==> Fits(f.schema, f.rows[k])
  }

  /** The type of a column, if the schema has it. */
  function Lookup(schema: seq<Field>, name: string): (r: Option<DType>)
    ensures r.Some? <==> name in Names(schema)
    ensures DistinctNames(schema) ==>
      forall i :: 0 <= i < |schema| && schema[i].name == name ==> r == Some(schema[i].dtype)
  {
    if schema == [] then None
    else if schema[0].name == name then Some(schema[0].dtype)
    else
      assert DistinctNames(schema) ==> DistinctNames(schema[1..]) by {
        if DistinctNames(schema) { DistinctCons(schema); }
      }
      assert forall i :: 0 < i < |schema| ==> schema[i] == schema[1..][i - 1];
      Lookup(schema[1..], name)
  }

  /** The schema has the column, with one of the `allowed` types. */
  predicate HasColumnOf(schema: seq<Field>, name: string, allowed: set<DType>) {
    Lookup(schema, name).Some? && Lookup(schema, name).value in allowed
  }

  /** The error an expression raises on reading column `name` as one of the `allowed` types. */
  function ColumnError(schema: seq<Field>, name: string, allowed: set<DType>): (e: Option<Error>)
    ensures e.None? <==> HasColumnOf(schema, name, allowed)
    ensures e == Some(ColumnNotFound(name)) <==> name !in Names(schema)
    ensures e == Some(InvalidType(name)) <==> name in Names(schema) && !HasColumnOf(schema, name, allowed)
  {
    match Lookup(schema, name)
    case None => Some(ColumnNotFound(name))
    case Some(t) => if t in allowed then None else Some(InvalidType(name))
  }

  /** The type of a column present in a valid frame agrees with every row's cell. */
  lemma LookupTypes(f: Frame, name: string, t: DType, k: nat)
    requires Valid(f) && Lookup(f.schema, name) == Some(t) && k < |f.rows|
    ensures name in f.rows[k] && HasType(f.rows[k][name], t)
  {
    NamesIndex(f.schema, name);
    var i :| 0 <= i < |f.schema| && f.schema[i].name == name;
    assert Fits(f.schema, f.rows[k]);
  }

  /**
   * The schema after `with_columns` of one output column: a column of the same
   * name is replaced where it stands, otherwise the new column is appended.
   */
  function Replace(schema: seq<Field>, fld: Field): (r: seq<Field>)
    requires DistinctNames(schema)
    ensures DistinctNames(r)
    ensures Names(r) == Names(schema) + {fld.name}
    ensures fld.name in Names(schema) ==>
      |r| == |schema| && forall i :: 0 <= i < |r| ==> r[i] == if schema[i].name == fld.name then fld else schema[i]
    ensures fld.name !in Names(schema) ==> r == schema + [fld]
  {
    if schema == [] then [fld]
    else if schema[0].name == fld.name then
      ReplaceAtHead(schema, fld);
      [fld] + schema[1..]
    else
      DistinctCons(schema);
      var tail := Replace(schema[1..], fld);
      ReplaceBelowHead(schema, fld, tail);
      [schema[0]] + tail
  }

  /** Replacing the first field keeps the rest of the schema. */
  lemma ReplaceAtHead(schema: seq<Field>, fld: Field)
    requires schema != [] && DistinctNames(schema) && schema[0].name == fld.name
    ensures var r := [fld] + schema[1..];
      && DistinctNames(r) && Names(r) == Names(schema) + {fld.name} && |r| == |schema|
      && forall i :: 0 <= i < |r| ==> r[i] == if schema[i].name == fld.name then fld else schema[i]
  {
    DistinctCons(schema);
    var r := [fld] + schema[1..];
    assert r[1..] == schema[1..];
    DistinctCons(r);
    forall i | 0 < i < |r| ensures r[i] == schema[i] && schema[i].name != fld.name {
      assert schema[0].name != schema[i].name;
    }
  }

  /** Replacing below the first field, given the replacement in the rest. */
  lemma ReplaceBelowHead(schema: seq<Field>, fld: Field, tail: seq<Field>)
    requires schema != [] && DistinctNames(schema) && schema[0].name != fld.name
    requires DistinctNames(tail) && Names(tail) == Names(schema[1..]) + {fld.name}
    requires fld.name in Names(schema[1..]) ==>
      |tail| == |schema[1..]| &&
      forall i :: 0 <= i < |tail| ==> tail[i] == if schema[1..][i].name == fld.name then fld else schema[1..][i]
    requires fld.name !in Names(schema[1..]) ==> tail == schema[1..] + [fld]
    ensures var r := [schema[0]] + tail;
      && DistinctNames(r) && Names(r) == Names(schema) + {fld.name}
      && (fld.name in Names(schema) ==>
        |r| == |schema| && forall i :: 0 <= i < |r| ==> r[i] == if schema[i].name == fld.name then fld else schema[i])
      && (fld.name !in Names(schema) ==> r == schema + [fld])
  {
    DistinctCons(schema);
    var r := [schema[0]] + tail;
    assert r[1..] == tail;
    DistinctCons(r);
    assert Names(schema) == {schema[0].name} + Names(schema[1..]);
    if fld.name in Names(schema) {
      forall i | 0 < i < |r| ensures r[i] == if schema[i].name == fld.name then fld else schema[i] {
        assert r[i] == tail[i - 1] && schema[1..][i - 1] == schema[i];
      }
    } else {
      assert schema == [schema[0]] + schema[1..];
    }
  }


  /** The image of `s` under `g`, element by element. */
  function Apply<T, U>(s: seq<T>, g: T -> U): (r: seq<U>)
    ensures |r| == |s| && forall k :: 0 <= k < |s| ==> r[k] == g(s[k])
  {
    if s == [] then [] else [g(s[0])] + Apply(s[1..], g)
  }

  /** The row update that stores `g(row)` under `name`. */
  function SetCell(name: string, g: Row -> Value): Row -> Row {
    row => row[name := g(row)]
  }

  /** After `with_columns`, the new column has the new type and every other column keeps its type. */
  lemma LookupReplace(schema: seq<Field>, fld: Field, name: string)
    requires DistinctNames(schema)
    ensures Lookup(Replace(schema, fld), name) == if name == fld.name then Some(fld.dtype) else Lookup(schema, name)
  {
    var r := Replace(schema, fld);
    NamesIndex(r, name);
    NamesIndex(schema, name);
    if name in Names(r) {
      var i :| 0 <= i < |r| && r[i].name == name;
      if fld.name !in Names(schema) && i == |schema| {
        assert r[i] == fld;
      } else {
        assert r[i] == if schema[i].name == fld.name then fld else schema[i];
      }
    }
  }

  /**
   * polars `with_columns` of one column computed by `g` from each row:
   * every row gets the new cell under `fld.name`, all other cells stay.
   */
  function WithColumn(f: Frame, fld: Field, g: Row -> Value): (r: Frame)
    requires Valid(f)
    requires forall k :: 0 <= k < |f.rows| ==> HasType(g(f.rows[k]), fld.dtype)
    ensures Valid(r)
    ensures r.schema == Replace(f.schema, fld) && |r.rows| == |f.rows|
    ensures forall k :: 0 <= k < |r.rows| ==>
      && r.rows[k].Keys == f.rows[k].Keys + {fld.name}
      && r.rows[k][fld.name] == g(f.rows[k])
      && forall c :: c in f.rows[k] && c != fld.name ==> r.rows[k][c] == f.rows[k][c]
    ensures r.rows == Apply(f.rows, SetCell(fld.name, g))
  {
    var schema := Replace(f.schema, fld);
    var rows := Apply(f.rows, SetCell(fld.name, g));
    forall k | 0 <= k < |rows| ensures Fits(schema, rows[k]) {
      assert Fits(f.schema, f.rows[k]);
      forall i | 0 <= i < |schema| ensures HasType(rows[k][schema[i].name], schema[i].dtype) {
        if schema[i].name != fld.name {
          if fld.name in Names(f.schema) {
            assert schema[i] == f.schema[i];
          } else {
            assert schema[i] == f.schema[i];
          }
        }
      }
    }
    Frame(schema, rows)
  }

  /** The elements of `s` that satisfy `p`, in their order in `s`. */
  function Keep<T(!new)>(s: seq<T>, p: T -> bool): (r: seq<T>)
    ensures |r| <= |s|
    ensures forall x :: x in r <==> x in s && p(x)
  {
    if s == [] then []
    else if p(s[0]) then [s[0]] + Keep(s[1..], p)
    else Keep(s[1..], p)
  }

  function Shift(t: seq<nat>): (r: seq<nat>)
    ensures |r| == |t| && forall k :: 0 <= k < |t| ==> r[k] == t[k] + 1
  {
    seq(|t|, k requires 0 <= k < |t| => t[k] + 1)
  }

  /** The positions of `s` whose element satisfies `p`, in increasing order. */
  function KeptPositions<T>(s: seq<T>, p: T -> bool): seq<nat>
  {
    if s == [] then []
    else if p(s[0]) then [0] + Shift(KeptPositions(s[1..], p))
    else Shift(KeptPositions(s[1..], p))
  }

  /** KeptPositions are positions of `s`, strictly increasing. */
  lemma {:induction false} KeptPositionsIncrease<T>(s: seq<T>, p: T -> bool)
    ensures forall k :: 0 <= k < |KeptPositions(s, p)| ==> KeptPositions(s, p)[k] < |s|
    ensures forall k, l :: 0 <= k < l < |KeptPositions(s, p)| ==> KeptPositions(s, p)[k] < KeptPositions(s, p)[l]
  {
    if s != [] {
      KeptPositionsIncrease(s[1..], p);
      var t := KeptPositions(s[1..], p);
      var tail := Shift(t);
      assert forall k :: 0 <= k < |tail| ==> 0 < tail[k] < |s|;
      assert forall k, l :: 0 <= k < l < |tail| ==> tail[k] < tail[l] by {
        forall k, l | 0 <= k < l < |tail| ensures tail[k] < tail[l] {
          assert t[k] < t[l];
        }
      }
      if p(s[0]) {
        var idx := [0] + tail;
        assert forall k :: 0 < k < |idx| ==> idx[k] == tail[k - 1];
      }
    }
  }

  /** Keep selects exactly the elements at KeptPositions. */
  lemma {:induction false} KeepPositions<T(!new)>(s: seq<T>, p: T -> bool)
    ensures var idx := KeptPositions(s, p);
      && |idx| == |Keep(s, p)|
      && (forall k :: 0 <= k < |idx| ==> idx[k] < |s| && Keep(s, p)[k] == s[idx[k]])
  {
    if s != [] {
      KeepPositions(s[1..], p);
      var t := KeptPositions(s[1..], p);
      var r := Keep(s[1..], p);
      var tail := Shift(t);
      forall k | 0 <= k < |t| ensures tail[k] < |s| && r[k] == s[tail[k]] {
        assert s[1..][t[k]] == s[t[k] + 1];
      }
      if p(s[0]) {
        var idx := [0] + tail;
        var kept := [s[0]] + r;
        assert KeptPositions(s, p) == idx && Keep(s, p) == kept;
        forall k | 0 < k < |idx| ensures idx[k] < |s| && kept[k] == s[idx[k]] {
          assert idx[k] == tail[k - 1] && kept[k] == r[k - 1];
        }
      } else {
        assert KeptPositions(s, p) == tail && Keep(s, p) == r;
      }
    }
  }

  /** Every position whose element satisfies `p`, and no other, is among KeptPositions. */
  lemma {:induction false} KeptPositionsComplete<T>(s: seq<T>, p: T -> bool)
    ensures forall i :: 0 <= i < |s| ==> (i in KeptPositions(s, p) <==> p(s[i]))
  {
    if s != [] {
      KeptPositionsComplete(s[1..], p);
      var t := KeptPositions(s[1..], p);
      var tail := Shift(t);
      forall i | 1 <= i < |s| ensures i in tail <==> p(s[i]) {
        assert s[i] == s[1..][i - 1];
        if (i - 1) in t {
          var k :| 0 <= k < |t| && t[k] == i - 1;
          assert tail[k] == i;
        }
      }
      assert 0 !in tail;
    }
  }

  /** `a` is obtained from `b` by deleting elements: a strictly increasing choice of positions. */
  ghost predicate SubsequenceOf<T>(a: seq<T>, b: seq<T>) {
    exists idx: seq<nat> ::
      && |idx| == |a|
      && (forall k :: 0 <= k < |idx| ==> idx[k] < |b| && a[k] == b[idx[k]])
      && (forall k, l :: 0 <= k < l < |idx| ==> idx[k] < idx[l])
  }

  lemma KeepIsSubsequence<T(!new)>(s: seq<T>, p: T -> bool)
    ensures SubsequenceOf(Keep(s, p), s)
  {
    KeepPositions(s, p);
    KeptPositionsIncrease(s, p);
    var idx := KeptPositions(s, p);
    assert forall k :: 0 <= k < |idx| ==> idx[k] < |s| && Keep(s, p)[k] == s[idx[k]];
  }

  /**
   * `a` is `b` with exactly the elements failing `p` deleted: an increasing
   * choice of positions of `b` that holds every position whose element passes
   * and no other.
   */
  ghost predicate FilteredBy<T>(a: seq<T>, b: seq<T>, p: T -> bool) {
    exists idx: seq<nat> ::
      && |idx| == |a|
      && (forall k :: 0 <= k < |idx| ==> idx[k] < |b| && a[k] == b[idx[k]])
      && (forall k, l :: 0 <= k < l < |idx| ==> idx[k] < idx[l])
      && (forall i :: 0 <= i < |b| ==> (i in idx <==> p(b[i])))
  }

  /** polars `filter` keeps the passing rows and drops every failing one. */
  lemma KeepIsFilter<T(!new)>(s: seq<T>, p: T -> bool)
    ensures FilteredBy(Keep(s, p), s, p)
  {
    KeepPositions(s, p);
    KeptPositionsIncrease(s, p);
    KeptPositionsComplete(s, p);
    var idx := KeptPositions(s, p);
    assert forall k :: 0 <= k < |idx| ==> idx[k] < |s| && Keep(s, p)[k] == s[idx[k]];
    assert forall i :: 0 <= i < |s| ==> (i in idx <==> p(s[i]));
  }

  /** Keep distributes over concatenation: it never reorders or mixes its input. */
  lemma {:induction false} KeepAppend<T(!new)>(a: seq<T>, b: seq<T>, p: T -> bool)
    ensures Keep(a + b, p) == Keep(a, p) + Keep(b, p)
  {
    if a == [] {
      assert a + b == b;
    } else {
      assert (a + b)[1..] == a[1..] + b;
      KeepAppend(a[1..], b, p);
    }
  }

  /** Filtering twice by the same predicate is filtering once. */
  lemma {:induction false} KeepIdempotent<T(!new)>(s: seq<T>, p: T -> bool)
    ensures Keep(Keep(s, p), p) == Keep(s, p)
  {
    if s != [] {
      KeepIdempotent(s[1..], p);
      if p(s[0]) {
        assert Keep(s, p)[1..] == Keep(s[1..], p);
      }
    }
  }

  /** Filters with predicates that agree on every element have the same result. */
  lemma {:induction false} KeepCongruent<T(!new)>(s: seq<T>, p: T -> bool, q: T -> bool)
    requires forall k :: 0 <= k < |s| ==> p(s[k]) == q(s[k])
    ensures Keep(s, p) == Keep(s, q)
  {
    if s != [] {
      assert forall k :: 0 <= k < |s[1..]| ==> s[1..][k] == s[k + 1];
      KeepCongruent(s[1..], p, q);
    }
  }

  /** The predicate `p` read through `g`. */
  function After<T, U>(g: T -> U, p: U -> bool): T -> bool {
    x => p(g(x))
  }

  /** The conjunction of two predicates. */
  function Both<T>(p: T -> bool, q: T -> bool): T -> bool {
    x => p(x) && q(x)
  }

  /** A filter no element passes leaves nothing. */
  lemma {:induction false} KeepNone<T(!new)>(s: seq<T>, p: T -> bool)
    requires forall k :: 0 <= k < |s| ==> !p(s[k])
    ensures Keep(s, p) == []
  {
    if s != [] {
      assert forall k :: 0 <= k < |s[1..]| ==> s[1..][k] == s[k + 1];
      KeepNone(s[1..], p);
    }
  }

  /** A filter every element passes keeps everything. */
  lemma {:induction false} KeepAll<T(!new)>(s: seq<T>, p: T -> bool)
    requires forall k :: 0 <= k < |s| ==> p(s[k])
    ensures Keep(s, p) == s
  {
    if s != [] {
      assert forall k :: 0 <= k < |s[1..]| ==> s[1..][k] == s[k + 1];
      KeepAll(s[1..], p);
      assert s == [s[0]] + s[1..];
    }
  }

  /** Filtering after a map is mapping after filtering by the predicate read through the map. */
  lemma {:induction false} KeepApply<T(!new), U(!new)>(s: seq<T>, g: T -> U, p: U -> bool)
    ensures Keep(Apply(s, g), p) == Apply(Keep(s, After(g, p)), g)
  {
    if s != [] {
      assert Apply(s, g)[1..] == Apply(s[1..], g);
      KeepApply(s[1..], g, p);
    }
  }

  /** Two filters in a row are one filter by the conjunction. */
  lemma {:induction false} KeepKeep<T(!new)>(s: seq<T>, p: T -> bool, q: T -> bool)
    ensures Keep(Keep(s, p), q) == Keep(s, Both(p, q))
  {
    if s != [] {
      KeepKeep(s[1..], p, q);
      if p(s[0]) {
        assert Keep(s, p)[1..] == Keep(s[1..], p);
      }
    }
  }

  /**
   * The row filter `(pl.col(column) >= start) & (pl.col(column) < end)` on a
   * datetime column: a null cell fails the comparison and drops the row.
   */
  function DatetimeWindow(column: string, start: int, end: int): (p: Row -> bool)
    ensures forall row: Row :: p(row) ==> column in row && row[column].Datetime?
    ensures forall row: Row :: column in row && row[column].Datetime? ==> (p(row) <==> start <= row[column].secs < end)
  {
    (row: Row) => column in row && row[column].Datetime? && start <= row[column].secs < end
  }

  /** polars `filter`: the rows for which the predicate is true, in order; the schema stays. */
  function FilterRows(f: Frame, p: Row -> bool): (r: Frame)
    requires Valid(f)
    ensures Valid(r) && r.schema == f.schema && r.rows == Keep(f.rows, p)
  {
    var rows := Keep(f.rows, p);
    forall k | 0 <= k < |rows| ensures Fits(f.schema, rows[k]) {
      assert rows[k] in f.rows;
    }
    Frame(f.schema, rows)
  }

  /** Whether a field is not the named column. */
  function NotNamed(name: string): Field -> bool {
    (fld: Field) => fld.name != name
  }

  /** The schema without the named column: the other fields, with their types, in their order. */
  function RemoveField(schema: seq<Field>, name: string): (r: seq<Field>)
    requires DistinctNames(schema)
    ensures DistinctNames(r)
    ensures Names(r) == Names(schema) - {name}
    ensures r == Keep(schema, NotNamed(name))
  {
    if schema == [] then []
    else
      DistinctCons(schema);
      var tail := RemoveField(schema[1..], name);
      if schema[0].name == name then tail
      else
        var r := [schema[0]] + tail;
        assert r[1..] == tail;
        DistinctCons(r);
        r
  }

  /** polars `select(pl.exclude(name))`: every column but `name`, cells unchanged. */
  function ExcludeColumn(f: Frame, name: string): (r: Frame)
    requires Valid(f)
    ensures Valid(r) && r.schema == RemoveField(f.schema, name)
    ensures |r.rows| == |f.rows|
    ensures forall k :: 0 <= k < |r.rows| ==> r.rows[k] == f.rows[k] - {name}
  {
    var schema := RemoveField(f.schema, name);
    var rows := seq(|f.rows|, k requires 0 <= k < |f.rows| => f.rows[k] - {name});
    forall k | 0 <= k < |rows| ensures Fits(schema, rows[k]) {
      assert Fits(f.schema, f.rows[k]);
      forall i | 0 <= i < |schema| ensures HasType(rows[k][schema[i].name], schema[i].dtype) {
        assert schema[i] in f.schema;
        var j :| 0 <= j < |f.schema| && f.schema[j] == schema[i];
      }
    }
    Frame(schema, rows)
  }

  /** polars `select(name)` of a present column: a one-column frame with the same rows. */
  function SelectColumn(f: Frame, name: string): (r: Frame)
    requires Valid(f) && name in Names(f.schema)
    ensures Valid(r) && Lookup(f.schema, name).Some? && r.schema == [Field(name, Lookup(f.schema, name).value)]
    ensures |r.rows| == |f.rows|
    ensures forall k :: 0 <= k < |r.rows| ==> r.rows[k] == map[name := f.rows[k][name]]
  {
    var t := Lookup(f.schema, name).value;
    var schema := [Field(name, t)];
    assert Names(schema) == {name};
    var rows := seq(|f.rows|, k requires 0 <= k < |f.rows| => map[name := f.rows[k][name]]);
    forall k | 0 <= k < |rows| ensures Fits(schema, rows[k]) {
      LookupTypes(f, name, t, k);
    }
    Frame(schema, rows)
  }
}

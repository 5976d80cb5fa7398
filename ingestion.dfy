/**
 * The pure parts of `get_nyc_taxi_data`: the list of (year, month) pairs
 * to download, and the names of the cached and per-month parquet files.
 */
module Ingestion {
  import opened Text

  type YearMonth = (int, int)

  /** Python tuple comparison `a <= b` on (year, month). */
  predicate LexLe(a: YearMonth, b: YearMonth) {
    a.0 < b.0 || (a.0 == b.0 && a.1 <= b.1)
  }

  /** Python tuple comparison `a < b` on (year, month). */
  predicate LexLt(a: YearMonth, b: YearMonth) {
    a.0 < b.0 || (a.0 == b.0 && a.1 < b.1)
  }

  predicate StrictlyIncreasing(s: seq<YearMonth>) {
    forall i, j :: 0 <= i < j < |s| ==> LexLt(s[i], s[j])
  }

  /** Whether the comprehension's filter admits (year, month) for the range [start, end]. */
  predicate InRange(p: YearMonth, start: YearMonth, end: YearMonth) {
    LexLe(start, p) && LexLe(p, end)
  }

  /** The inner comprehension for one year: months `month`..12 that fall in range. */
  function MonthsOfYear(year: int, month: int, start: YearMonth, end: YearMonth): (r: seq<YearMonth>)
    ensures forall p :: p in r ==> p.0 == year && month <= p.1 <= 12 && InRange(p, start, end)
    decreases 13 - month
  {
    if month > 12 then []
    else
      var here: seq<YearMonth> := if InRange((year, month), start, end) then [(year, month)] else [];
      here + MonthsOfYear(year, month + 1, start, end)
  }

  /** The outer comprehension: years `year`..end.0, each with its months 1..12. */
  function YearsFrom(year: int, start: YearMonth, end: YearMonth): (r: seq<YearMonth>)
    ensures forall p :: p in r ==> year <= p.0 <= end.0 && 1 <= p.1 <= 12 && InRange(p, start, end)
    decreases end.0 + 1 - year
  {
    if year > end.0 then []
    else MonthsOfYear(year, 1, start, end) + YearsFrom(year + 1, start, end)
  }

  /**
   * `[(year, month) for year in range(start_year, end_year + 1)
   *    for month in range(1, 13) if start <= (year, month) <= end]`.
   */
  function YearMonthTuples(start: YearMonth, end: YearMonth): (r: seq<YearMonth>)
    ensures forall p :: p in r <==> 1 <= p.1 <= 12 && InRange(p, start, end)
  {
    YearsFromMembers(start.0, start, end);
    YearsFrom(start.0, start, end)
  }

  lemma {:induction false} MonthsOfYearMembers(year: int, month: int, start: YearMonth, end: YearMonth)
    ensures forall p :: p in MonthsOfYear(year, month, start, end) <==>
      p.0 == year && month <= p.1 <= 12 && InRange(p, start, end)
    decreases 13 - month
  {
    if month <= 12 {
      MonthsOfYearMembers(year, month + 1, start, end);
    }
  }

  lemma {:induction false} YearsFromMembers(year: int, start: YearMonth, end: YearMonth)
    ensures forall p :: p in YearsFrom(year, start, end) <==>
      year <= p.0 <= end.0 && 1 <= p.1 <= 12 && InRange(p, start, end)
    decreases end.0 + 1 - year
  {
    if year <= end.0 {
      var here := MonthsOfYear(year, 1, start, end);
      var rest := YearsFrom(year + 1, start, end);
      MonthsOfYearMembers(year, 1, start, end);
      YearsFromMembers(year + 1, start, end);
      forall p: YearMonth ensures p in here + rest <==> year <= p.0 <= end.0 && 1 <= p.1 <= 12 && InRange(p, start, end) {
        assert p in here + rest <==> p in here || p in rest;
      }
      assert YearsFrom(year, start, end) == here + rest;
    }
  }

  /** A start after the end gives no months at all. */
  lemma YearMonthTuplesEmpty(start: YearMonth, end: YearMonth)
    requires LexLt(end, start)
    ensures YearMonthTuples(start, end) == []
  {
    if start.0 <= end.0 {
      MonthsOfYearEmpty(start.0, 1, start, end);
      assert YearsFrom(start.0 + 1, start, end) == [];
    }
  }

  lemma {:induction false} MonthsOfYearEmpty(year: int, month: int, start: YearMonth, end: YearMonth)
    requires year == start.0 == end.0 && end.1 < start.1
    ensures MonthsOfYear(year, month, start, end) == []
    decreases 13 - month
  {
    if month <= 12 {
      MonthsOfYearEmpty(year, month + 1, start, end);
    }
  }

  lemma AppendIncreasing(a: seq<YearMonth>, b: seq<YearMonth>)
    requires StrictlyIncreasing(a) && StrictlyIncreasing(b)
    requires forall x, y :: x in a && y in b ==> LexLt(x, y)
    ensures StrictlyIncreasing(a + b)
  {
    forall i, j | 0 <= i < j < |a + b| ensures LexLt((a + b)[i], (a + b)[j]) {
      if j < |a| {
      } else if i >= |a| {
        assert (a + b)[i] == b[i - |a|] && (a + b)[j] == b[j - |a|];
      } else {
        assert (a + b)[i] in a && (a + b)[j] in b;
      }
    }
  }

  lemma {:induction false} MonthsOfYearIncreasing(year: int, month: int, start: YearMonth, end: YearMonth)
    ensures StrictlyIncreasing(MonthsOfYear(year, month, start, end))
    decreases 13 - month
  {
    if month <= 12 {
      var head: seq<YearMonth> := if InRange((year, month), start, end) then [(year, month)] else [];
      var rest := MonthsOfYear(year, month + 1, start, end);
      MonthsOfYearIncreasing(year, month + 1, start, end);
      forall x, y | x in head && y in rest ensures LexLt(x, y) {
        assert x == (year, month);
      }
      AppendIncreasing(head, rest);
    }
  }

  lemma {:induction false} YearsFromIncreasing(year: int, start: YearMonth, end: YearMonth)
    ensures StrictlyIncreasing(YearsFrom(year, start, end))
    decreases end.0 + 1 - year
  {
    if year <= end.0 {
      var here := MonthsOfYear(year, 1, start, end);
      var rest := YearsFrom(year + 1, start, end);
      MonthsOfYearIncreasing(year, 1, start, end);
      YearsFromIncreasing(year + 1, start, end);
      forall x, y | x in here && y in rest ensures LexLt(x, y) {
      }
      AppendIncreasing(here, rest);
    }
  }

  /** The month list is strictly increasing, so it never lists a month twice. */
  lemma YearMonthTuplesIncreasing(start: YearMonth, end: YearMonth)
    ensures StrictlyIncreasing(YearMonthTuples(start, end))
    ensures forall i, j :: 0 <= i < j < |YearMonthTuples(start, end)| ==>
      YearMonthTuples(start, end)[i] != YearMonthTuples(start, end)[j]
  {
    YearsFromIncreasing(start.0, start, end);
  }

  /**
   * How many months `month`..12 of `year` fall in range, for a start and
   * end month that are calendar months.
   */
  lemma {:induction false} MonthsOfYearLength(year: int, month: int, start: YearMonth, end: YearMonth)
    requires 1 <= month <= 13 && 1 <= start.1 <= 12 && 1 <= end.1 <= 12
    ensures var lo := if year == start.0 && start.1 > month then start.1 else month;
      var hi := if year == end.0 then end.1 else 12;
      |MonthsOfYear(year, month, start, end)| ==
        if year < start.0 || year > end.0 || hi < lo then 0 else hi - lo + 1
    decreases 13 - month
  {
    if month <= 12 {
      MonthsOfYearLength(year, month + 1, start, end);
    }
  }

  lemma {:induction false} YearsFromLength(year: int, start: YearMonth, end: YearMonth)
    requires start.0 < year <= end.0 && 1 <= start.1 <= 12 && 1 <= end.1 <= 12
    ensures |YearsFrom(year, start, end)| == (end.0 - year) * 12 + end.1
    decreases end.0 - year
  {
    var here := MonthsOfYear(year, 1, start, end);
    var rest := YearsFrom(year + 1, start, end);
    assert YearsFrom(year, start, end) == here + rest;
    MonthsOfYearLength(year, 1, start, end);
    assert |here| == if year == end.0 then end.1 else 12;
    if year < end.0 {
      YearsFromLength(year + 1, start, end);
      assert |rest| == (end.0 - year - 1) * 12 + end.1;
    } else {
      assert rest == [];
    }
  }

  /** The months the first year contributes. */
  lemma FirstYearLength(start: YearMonth, end: YearMonth)
    requires 1 <= start.1 <= 12 && 1 <= end.1 <= 12 && LexLe(start, end)
    ensures |MonthsOfYear(start.0, 1, start, end)| ==
      if start.0 < end.0 then 13 - start.1 else end.1 - start.1 + 1
  {
    MonthsOfYearLength(start.0, 1, start, end);
  }

  /**
   * Between two calendar months with start <= end the list has
   * (end_year - start_year) * 12 + (end_month - start_month) + 1 entries.
   */
  lemma YearMonthTuplesLength(start: YearMonth, end: YearMonth)
    requires 1 <= start.1 <= 12 && 1 <= end.1 <= 12 && LexLe(start, end)
    ensures |YearMonthTuples(start, end)| == (end.0 - start.0) * 12 + (end.1 - start.1) + 1
  {
    FirstYearLength(start, end);
    if start.0 < end.0 {
      YearsFromLength(start.0 + 1, start, end);
    } else {
      assert YearsFrom(start.0 + 1, start, end) == [];
    }
  }

  /** In a strictly increasing list every other element comes after the head. */
  lemma HeadIsLeast(s: seq<YearMonth>, x: YearMonth)
    requires StrictlyIncreasing(s) && x in s && x != s[0]
    ensures LexLt(s[0], x)
  {
    var k :| 0 <= k < |s| && s[k] == x;
    assert k != 0;
  }

  /** The tail of a strictly increasing list holds everything but its head. */
  lemma TailMembers(s: seq<YearMonth>, x: YearMonth)
    requires StrictlyIncreasing(s) && s != []
    ensures x in s[1..] <==> x in s && x != s[0]
  {
    if x in s[1..] {
      var k :| 0 <= k < |s| - 1 && s[1..][k] == x;
      assert s[k + 1] == x && LexLt(s[0], s[k + 1]);
    }
    if x in s && x != s[0] {
      var k :| 0 <= k < |s| && s[k] == x;
      assert s[1..][k - 1] == x;
    }
  }

  /** A strictly increasing list is determined by its elements. */
  lemma {:induction false} IncreasingUnique(a: seq<YearMonth>, b: seq<YearMonth>)
    requires StrictlyIncreasing(a) && StrictlyIncreasing(b)
    requires forall p :: p in a <==> p in b
    ensures a == b
  {
    assert a != [] ==> a[0] in b;
    assert b != [] ==> b[0] in a;
    if a != [] && b != [] {
      if a[0] != b[0] {
        HeadIsLeast(b, a[0]);
        HeadIsLeast(a, b[0]);
        assert false;
      }
      forall p ensures p in a[1..] <==> p in b[1..] {
        TailMembers(a, p);
        TailMembers(b, p);
      }
      IncreasingUnique(a[1..], b[1..]);
      assert a == [a[0]] + a[1..] && b == [b[0]] + b[1..];
    }
  }

  const DataFilePrefix := "yellow_tripdata_"
  const ParquetSuffix := ".parquet"
  const DownloadBase := "https://d37ci6vzurychx.cloudfront.net/trip-data/"
  /** The download template up to its `{:04d}-{:02d}` placeholders. */
  const UrlTemplateHead := "https://d37ci6vzurychx.cloudfront.net/trip-data/yellow_tripdata_"

  /**
   * `r` is the path `rel` under `root`: it ends with `rel`; under `""` or
   * `"."` it is `rel` itself, otherwise it starts with `root` and a separator
   * comes right before `rel`.
   */
  predicate Joined(r: string, root: string, rel: string) {
    && |rel| <= |r| && r[|r| - |rel|..] == rel
    && (root == "" || root == "." ==> r == rel)
    && (root != "" && root != "." ==>
          |root| < |r| - |rel| + 1 && r[..|root|] == root && r[|r| - |rel| - 1] == '/')
  }

  /** pathlib's `root / rel` for a relative `rel`: one separator between the two, none added after a trailing one. */
  function JoinPath(root: string, rel: string): (r: string)
    ensures Joined(r, root, rel)
  {
    if root == "" || root == "." then rel
    else if root[|root| - 1] == '/' then root + rel
    else root + "/" + rel
  }

  /** A year of at most four digits and a month of at most two, both non-negative. */
  predicate Padded(ym: YearMonth) {
    0 <= ym.0 <= 9999 && 0 <= ym.1 <= 99
  }

  /** `{year:04d}-{month:02d}`: for a padded month, four digits, a dash and two digits. */
  function YearMonthText(ym: YearMonth): (s: string)
    ensures Padded(ym) ==> |s| == 7 && s[4] == '-'
  {
    assert Padded(ym) ==> |FormatInt(ym.0, 4)| == 4 && |FormatInt(ym.1, 2)| == 2 by {
      if Padded(ym) {
        assert Pow10(4) == 10000 && Pow10(2) == 100;
        FormatIntFixedWidth(ym.0, 4);
        FormatIntFixedWidth(ym.1, 2);
      }
    }
    FormatInt(ym.0, 4) + "-" + FormatInt(ym.1, 2)
  }

  /** `{YYYY}-{MM}` of a padded month is a text from which year and month read back. */
  lemma YearMonthTextRoundTrip(ym: YearMonth)
    requires Padded(ym)
    ensures var s := YearMonthText(ym);
      && AllDigits(s[..4]) && ParseDigits(s[..4]) == ym.0
      && AllDigits(s[5..]) && ParseDigits(s[5..]) == ym.1
  {
    assert Pow10(4) == 10000 && Pow10(2) == 100;
    FormatIntFixedWidth(ym.0, 4);
    FormatIntFixedWidth(ym.1, 2);
    var s := YearMonthText(ym);
    assert s[..4] == FormatInt(ym.0, 4);
    assert s[5..] == FormatInt(ym.1, 2);
  }

  /** `{YYYY}-{MM}` tells padded months apart. */
  lemma YearMonthTextInjective(a: YearMonth, b: YearMonth)
    requires Padded(a) && Padded(b) && YearMonthText(a) == YearMonthText(b)
    ensures a == b
  {
    YearMonthTextRoundTrip(a);
    YearMonthTextRoundTrip(b);
  }

  /**
   * The name of the combined file cached for the range [start, end]: the
   * data prefix, the two month texts around `_`, the parquet suffix.
   */
  function CacheFileName(start: YearMonth, end: YearMonth): (s: string)
    ensures |DataFilePrefix| + |ParquetSuffix| <= |s|
    ensures s[..|DataFilePrefix|] == DataFilePrefix && s[|s| - |ParquetSuffix|..] == ParquetSuffix
    ensures Padded(start) && Padded(end) ==>
      && |s| == |DataFilePrefix| + 15 + |ParquetSuffix|
      && s[|DataFilePrefix|..|DataFilePrefix| + 7] == YearMonthText(start)
      && s[|DataFilePrefix| + 7] == '_'
      && s[|DataFilePrefix| + 8..|DataFilePrefix| + 15] == YearMonthText(end)
  {
    TwoParts(DataFilePrefix, YearMonthText(start), YearMonthText(end), ParquetSuffix);
    DataFilePrefix + YearMonthText(start) + "_" + YearMonthText(end) + ParquetSuffix
  }

  /** `root / "data/raw/yellow_tripdata_{YYYY}-{MM}_{YYYY}-{MM}.parquet"`: the cache file in `data/raw/` under `root`. */
  function CachePath(root: string, start: YearMonth, end: YearMonth): (r: string)
    ensures Joined(r, root, "data/raw/" + CacheFileName(start, end))
  {
    JoinPath(root, "data/raw/" + CacheFileName(start, end))
  }

  /** The per-month file name, `yellow_tripdata_{YYYY}-{MM}.parquet`. */
  function MonthFileName(ym: YearMonth): (s: string)
    ensures |DataFilePrefix| + |ParquetSuffix| <= |s|
    ensures s[..|DataFilePrefix|] == DataFilePrefix && s[|s| - |ParquetSuffix|..] == ParquetSuffix
    ensures Padded(ym) ==>
      |s| == |DataFilePrefix| + 7 + |ParquetSuffix| && s[|DataFilePrefix|..|DataFilePrefix| + 7] == YearMonthText(ym)
  {
    Affixes(DataFilePrefix, YearMonthText(ym), ParquetSuffix);
    DataFilePrefix + YearMonthText(ym) + ParquetSuffix
  }

  /** Where one month is written in the temporary directory: its file name, directly under `tempDir`. */
  function MonthFilePath(tempDir: string, ym: YearMonth): (r: string)
    ensures Joined(r, tempDir, MonthFileName(ym))
  {
    JoinPath(tempDir, MonthFileName(ym))
  }

  /**
   * `base.format(year, month)`: the download template filled with the
   * four-digit year and two-digit month. Its last path part is the name the
   * month is saved under.
   */
  function MonthUrl(ym: YearMonth): (r: string)
    ensures r == DownloadBase + MonthFileName(ym)
  {
    UrlTemplateHeadParts();
    Regroup(DownloadBase, DataFilePrefix, FormatInt(ym.0, 4), FormatInt(ym.1, 2), ParquetSuffix);
    UrlTemplateHead + FormatInt(ym.0, 4) + "-" + FormatInt(ym.1, 2) + ParquetSuffix
  }

  /** The download template's head is the download directory followed by the data prefix. */
  lemma UrlTemplateHeadParts()
    ensures UrlTemplateHead == DownloadBase + DataFilePrefix
  {
  }

  /** Regrouping the parts of a URL: the directory, then the file name. */
  lemma Regroup(b: string, p: string, x: string, y: string, q: string)
    ensures b + p + x + "-" + y + q == b + (p + (x + "-" + y) + q)
  {
  }

  /** The outer parts of `p + x + q` can be read back from their positions. */
  lemma Affixes(p: string, x: string, q: string)
    ensures (p + x + q)[..|p|] == p && (p + x + q)[|p| + |x|..] == q
    ensures (p + x + q)[|p|..|p| + |x|] == x
  {
  }

  /** The parts of `p + x + "_" + y + q` can be read back from their positions. */
  lemma TwoParts(p: string, x: string, y: string, q: string)
    ensures var s := p + x + "_" + y + q;
      && |s| == |p| + |x| + 1 + |y| + |q|
      && s[..|p|] == p && s[|s| - |q|..] == q
      && s[|p|..|p| + |x|] == x && s[|p| + |x|] == '_' && s[|p| + |x| + 1..|p| + |x| + 1 + |y|] == y
  {
  }

  /** Distinct months get distinct per-month files and URLs. */
  lemma MonthFileNameInjective(a: YearMonth, b: YearMonth)
    requires Padded(a) && Padded(b) && MonthFileName(a) == MonthFileName(b)
    ensures a == b
  {
    YearMonthTextInjective(a, b);
  }

  /** The cache file name determines both ends of its range. */
  lemma CacheFileNameInjective(s1: YearMonth, e1: YearMonth, s2: YearMonth, e2: YearMonth)
    requires Padded(s1) && Padded(e1) && Padded(s2) && Padded(e2)
    requires CacheFileName(s1, e1) == CacheFileName(s2, e2)
    ensures s1 == s2 && e1 == e2
  {
    YearMonthTextInjective(s1, s2);
    YearMonthTextInjective(e1, e2);
  }

  /**
   * The file a month is saved under in a temporary directory is the last
   * path part of its download address.
   */
  lemma MonthUrlEndsWithFileName(tempDir: string, ym: YearMonth)
    requires tempDir != "" && tempDir != "." && tempDir[|tempDir| - 1] != '/'
    ensures MonthUrl(ym)[|DownloadBase|..] == MonthFileName(ym)
    ensures MonthFilePath(tempDir, ym) == tempDir + "/" + MonthFileName(ym)
  {
    var name := MonthFileName(ym);
    assert (DownloadBase + name)[|DownloadBase|..] == name;
  }

  /**
   * The month list is the one strictly increasing list of the calendar
   * months in range: any such list equals it.
   */
  lemma YearMonthTuplesCharacterized(start: YearMonth, end: YearMonth, expected: seq<YearMonth>)
    requires StrictlyIncreasing(expected)
    requires forall p :: p in expected <==> 1 <= p.1 <= 12 && InRange(p, start, end)
    ensures YearMonthTuples(start, end) == expected
  {
    YearMonthTuplesIncreasing(start, end);
    IncreasingUnique(YearMonthTuples(start, end), expected);
  }

  /** When start == end is a calendar month, the list is that single month. */
  lemma YearMonthTuplesSingle(ym: YearMonth)
    requires 1 <= ym.1 <= 12
    ensures YearMonthTuples(ym, ym) == [ym]
  {
    YearMonthTuplesCharacterized(ym, ym, [ym]);
  }

  /** The range (2019, 11)..(2020, 3) crosses a year boundary and lists five months. */
  lemma AcrossYearsExample()
    ensures YearMonthTuples((2019, 11), (2020, 3)) == [(2019, 11), (2019, 12), (2020, 1), (2020, 2), (2020, 3)]
  {
    var expected: seq<YearMonth> := [(2019, 11), (2019, 12), (2020, 1), (2020, 2), (2020, 3)];
    forall p ensures p in expected <==> 1 <= p.1 <= 12 && InRange(p, (2019, 11), (2020, 3)) {
      if 1 <= p.1 <= 12 && InRange(p, (2019, 11), (2020, 3)) {
        if p.0 == 2019 {
          assert expected[p.1 - 11] == p;
        } else {
          assert expected[p.1 + 1] == p;
        }
      }
    }
    YearMonthTuplesCharacterized((2019, 11), (2020, 3), expected);
  }

  /** The range (2023, 1)..(2023, 12) is the whole year, month by month. */
  lemma SingleYearExample()
    ensures YearMonthTuples((2023, 1), (2023, 12)) == seq(12, i => (2023, i + 1))
  {
    var expected: seq<YearMonth> := seq(12, i => (2023, i + 1));
    forall p ensures p in expected <==> 1 <= p.1 <= 12 && InRange(p, (2023, 1), (2023, 12)) {
      if 1 <= p.1 <= 12 && p.0 == 2023 {
        assert expected[p.1 - 1] == p;
      }
    }
    YearMonthTuplesCharacterized((2023, 1), (2023, 12), expected);
  }

  /** The four-digit renderings of the years in the examples. */
  lemma YearTexts()
    ensures FormatInt(2023, 4) == "2023" && FormatInt(2022, 4) == "2022"
  {
    assert Digits(2023) == "2023";
    assert Digits(2022) == "2022";
  }

  /** The two-digit renderings of the months in the examples. */
  lemma MonthTexts()
    ensures FormatInt(1, 2) == "01" && FormatInt(2, 2) == "02"
    ensures FormatInt(3, 2) == "03" && FormatInt(12, 2) == "12"
  {
    assert Zeros(1) == "0";
    assert Digits(12) == "12";
  }

  /** Joining a relative path under a root whose last character is not a separator. */
  lemma JoinUnderRoot(root: string, dir: string, name: string)
    requires root != "" && root != "." && root[|root| - 1] != '/'
    ensures JoinPath(root, dir + name) == root + "/" + dir + name
  {
    assert root + "/" + (dir + name) == root + "/" + dir + name;
  }

  /** Under a root without a trailing separator, the cache file sits in `data/raw/`. */
  lemma CachePathUnderRoot(root: string, start: YearMonth, end: YearMonth)
    requires root != "" && root != "." && root[|root| - 1] != '/'
    ensures CachePath(root, start, end) == root + "/" + "data/raw/" + CacheFileName(start, end)
  {
    JoinUnderRoot(root, "data/raw/", CacheFileName(start, end));
  }

  /** `{YYYY}-{MM}` built from the texts of its year and month. */
  lemma YearMonthTextFrom(ym: YearMonth, y: string, m: string)
    requires FormatInt(ym.0, 4) == y && FormatInt(ym.1, 2) == m
    ensures YearMonthText(ym) == y + "-" + m
  {
  }

  /** The example texts, joined at their dash. */
  lemma YearMonthLiterals()
    ensures "2023" + "-" + "01" == "2023-01" && "2023" + "-" + "03" == "2023-03"
    ensures "2022" + "-" + "12" == "2022-12" && "2023" + "-" + "02" == "2023-02"
  {
  }

  /** The `{YYYY}-{MM}` texts of the months in the examples. */
  lemma YearMonthTextExamples()
    ensures YearMonthText((2023, 1)) == "2023-01" && YearMonthText((2023, 3)) == "2023-03"
    ensures YearMonthText((2022, 12)) == "2022-12" && YearMonthText((2023, 2)) == "2023-02"
  {
    YearTexts();
    MonthTexts();
    YearMonthLiterals();
    YearMonthTextFrom((2023, 1), "2023", "01");
    YearMonthTextFrom((2023, 3), "2023", "03");
    YearMonthTextFrom((2022, 12), "2022", "12");
    YearMonthTextFrom((2023, 2), "2023", "02");
  }

  /** The cache file name built from the texts of its two months. */
  lemma CacheFileNameFrom(start: YearMonth, end: YearMonth, a: string, b: string)
    requires YearMonthText(start) == a && YearMonthText(end) == b
    ensures CacheFileName(start, end) == DataFilePrefix + a + "_" + b + ParquetSuffix
  {
  }

  /** The two example cache file names, spelled out. */
  lemma CacheFileNameLiterals()
    ensures DataFilePrefix + "2023-01" + "_" + "2023-03" + ParquetSuffix == "yellow_tripdata_2023-01_2023-03.parquet"
    ensures DataFilePrefix + "2022-12" + "_" + "2023-02" + ParquetSuffix == "yellow_tripdata_2022-12_2023-02.parquet"
  {
  }

  /** The cache file for January to March 2023, padded to 4 and 2 digits. */
  lemma CacheFileNameExample()
    ensures CacheFileName((2023, 1), (2023, 3)) == "yellow_tripdata_2023-01_2023-03.parquet"
  {
    YearMonthTextExamples();
    CacheFileNameFrom((2023, 1), (2023, 3), "2023-01", "2023-03");
    CacheFileNameLiterals();
  }

  /** The cache file for a range that crosses a year boundary. */
  lemma CacheFileNameAcrossYearsExample()
    ensures CacheFileName((2022, 12), (2023, 2)) == "yellow_tripdata_2022-12_2023-02.parquet"
  {
    YearMonthTextExamples();
    CacheFileNameFrom((2022, 12), (2023, 2), "2022-12", "2023-02");
    CacheFileNameLiterals();
  }

  /** Zero padding of short numbers, with the sign counted in the width. */
  lemma SmallTexts()
    ensures FormatInt(5, 4) == "0005" && FormatInt(7, 2) == "07" && FormatInt(-5, 4) == "-005"
  {
    assert Zeros(1) == "0";
    assert Zeros(3) == "000";
  }

  /** Numbers wider than the padding width are kept whole. */
  lemma WideTexts()
    ensures FormatInt(12345, 4) == "12345" && FormatInt(123, 2) == "123"
  {
    assert Digits(12345) == "12345";
    assert Digits(123) == "123";
  }

  /** Python's padding puts a minus sign before the zeros and never truncates. */
  lemma FormatExamples()
    ensures YearMonthText((5, 7)) == "0005-07"
    ensures YearMonthText((-5, 7)) == "-005-07"
    ensures YearMonthText((12345, 123)) == "12345-123"
  {
    SmallTexts();
    WideTexts();
  }
}

/** `filter_data` (data_reader.py): narrowing a table of posts by year
    ranges, by platform and by query terms. Each criterion is optional and
    the active ones are conjunctive; any failure gives an empty table. */
module FilterEngine {
  import opened Basics
  import opened Strings
  import opened Tables

  // ------------------------------------------------------ year ranges

  /** An inclusive range of years. */
  datatype YearRange = YearRange(start: int, end: int)

  /** `re.split(r'[-_]', ...)` splits a year token at these characters. */
  const RangeSeparators: set<char> := {'-', '_'}

  /** One token of the `years` list: split at every `-` and `_`; a range
      only when there are exactly two pieces and `int()` accepts both. */
  function ParseYearRange(token: string): (r: Option<YearRange>)
    ensures r.Some? ==> Occurrences(token, RangeSeparators) == 1
  {
    var pieces := Split(token, RangeSeparators);
    if |pieces| != 2 then None
    else
      match (ParseInt(pieces[0]), ParseInt(pieces[1]))
      case (Some(a), Some(b)) => Some(YearRange(a, b))
      case _ => None
  }

  /** The ranges of the tokens that parse, in token order; a token that
      does not parse is dropped on its own. */
  function ValidRanges(tokens: seq<string>): (r: seq<YearRange>)
    ensures |r| <= |tokens|
    ensures forall yr :: yr in r <==> exists k :: 0 <= k < |tokens| && ParseYearRange(tokens[k]) == Some(yr)
  {
    CollectExact(tokens, ParseYearRange);
    Collect(tokens, ParseYearRange)
  }

  /** The loop of lines 75-82: try each token, keep the ranges that parse. */
  method ParseYearRanges(years: seq<string>) returns (yearRanges: seq<YearRange>)
    ensures yearRanges == ValidRanges(years)
  {
    yearRanges := [];
    var i := 0;
    while i < |years|
      invariant 0 <= i <= |years|
      invariant yearRanges == Collect(years[..i], ParseYearRange)
    {
      PrefixSnoc(years, i);
      CollectSnoc(years[..i], years[i], ParseYearRange);
      var parsed := ParseYearRange(years[i]);
      if parsed.Some? {
        yearRanges := yearRanges + [parsed.value];
      }
      i := i + 1;
    }
    assert years[..|years|] == years;
  }

  // ---------------------------------------------------- row predicates

  /** The cell of `row` under the first column labelled `name`; NaN when
      there is no such column. */
  function CellAt(row: Row, cols: seq<string>, name: string): Cell
  {
    if name in cols && IndexOf(cols, name) < |row| then row[IndexOf(cols, name)] else NaN
  }

  /** `any(start <= y <= end for start, end in year_ranges)`: false for NaN. */
  predicate InAnyRange(y: Cell, ranges: seq<YearRange>)
    ensures !y.Num? ==> !InAnyRange(y, ranges)
    ensures (forall k :: 0 <= k < |ranges| ==> ranges[k].start > ranges[k].end) ==> !InAnyRange(y, ranges)
    ensures forall k | 0 <= k < |ranges| && ranges[k].start <= ranges[k].end ::
      y.Num? && (y.n == ranges[k].start || y.n == ranges[k].end) ==> InAnyRange(y, ranges)
  {
    y.Num? && exists k :: 0 <= k < |ranges| && ranges[k].start <= y.n <= ranges[k].end
  }

  /** `isin([sn.lower() for sn in social_networks])`: equal, as a string, to
      one lower-cased criterion; criteria are not stripped. */
  predicate PlatformIn(p: Cell, platforms: seq<string>)
    ensures PlatformIn(p, platforms) ==> p.Str? && IsLower(p.s)
    ensures p.Str? && IsLower(p.s) && p.s in platforms ==> PlatformIn(p, platforms)
  {
    p.Str? && (LowerAllKeeps(p.s, platforms); p.s in LowerAll(platforms))
  }

  /** `str.contains('|'.join(map(re.escape, terms)), case=False, na=False)`:
      some term occurs literally in the text, ignoring case; a missing or
      non-string text never matches. */
  predicate TextMatches(x: Cell, terms: seq<string>)
    ensures TextMatches(x, terms) ==> x.Str? && terms != []
    ensures x.Str? && (exists k :: 0 <= k < |terms| && Contains(x.s, terms[k])) ==> TextMatches(x, terms)
    ensures x.Str? && "" in terms ==> TextMatches(x, terms)
  {
    x.Str? && (SomeTermContainsLower(x.s, terms);
      exists k :: 0 <= k < |terms| && Contains(Lower(x.s), Lower(terms[k])))
  }

  predicate YearOk(row: Row, cols: seq<string>, ranges: seq<YearRange>)
  {
    ranges == [] || InAnyRange(CellAt(row, cols, "year"), ranges)
  }

  predicate PlatformOk(row: Row, cols: seq<string>, platforms: seq<string>)
  {
    platforms == [] || PlatformIn(CellAt(row, cols, "platform"), platforms)
  }

  predicate TextOk(row: Row, cols: seq<string>, terms: seq<string>)
  {
    terms == [] || TextMatches(CellAt(row, cols, "text"), terms)
  }

  /** A row passes every active criterion; an empty criterion passes all. */
  predicate Matches(row: Row, cols: seq<string>, ranges: seq<YearRange>, platforms: seq<string>, terms: seq<string>)
  {
    YearOk(row, cols, ranges) && PlatformOk(row, cols, platforms) && TextOk(row, cols, terms)
  }

  function YearTest(cols: seq<string>, ranges: seq<YearRange>): Row -> bool
  {
    row => YearOk(row, cols, ranges)
  }

  function PlatformTest(cols: seq<string>, platforms: seq<string>): Row -> bool
  {
    row => PlatformOk(row, cols, platforms)
  }

  function TextTest(cols: seq<string>, terms: seq<string>): Row -> bool
  {
    row => TextOk(row, cols, terms)
  }

  function MatchTest(cols: seq<string>, ranges: seq<YearRange>, platforms: seq<string>, terms: seq<string>): Row -> bool
  {
    row => Matches(row, cols, ranges, platforms, terms)
  }

  // ----------------------------------------------------- specification

  /** The table after `df.rename(columns=str.lower)`. */
  function Renamed(t: Table): (r: Table)
    ensures WellFormed(t) ==> WellFormed(r)
  {
    Table(LowerAll(t.columns), t.rows)
  }

  /** The table after `df['year'] = pd.to_numeric(df['year'], errors='coerce')`. */
  function Coerced(t: Table): (r: Table)
    requires WellFormed(t) && Count(t.columns, "year") == 1
    ensures WellFormed(r) && r.columns == t.columns
  {
    MapColumn(t, IndexOf(t.columns, "year"), ToNumeric)
  }

  /** The caller's table after the call: renamed, and its year column
      coerced when that step was reached. */
  function CallerTableAfter(t: Table): (r: Table)
    requires WellFormed(t)
    ensures WellFormed(r) && r.columns == LowerAll(t.columns)
  {
    var n := Renamed(t);
    if Count(n.columns, "year") == 1 then Coerced(n) else n
  }

  /** The cases in which `filter_data` raises and answers `pd.DataFrame()`:
      no table (`None.rename`), no single `year` column (`KeyError`, or a
      `TypeError` from `to_numeric` when the label repeats), and no single
      `platform` or `text` column when that criterion is given. */
  predicate FilterFails(df: Option<Table>, platforms: seq<string>, terms: seq<string>)
    ensures !FilterFails(df, platforms, terms) ==>
      df.Some? && "year" in LowerAll(df.value.columns) &&
      (platforms != [] ==> "platform" in LowerAll(df.value.columns)) &&
      (terms != [] ==> "text" in LowerAll(df.value.columns))
    ensures (df.Some? && Distinct(LowerAll(df.value.columns)) && "year" in LowerAll(df.value.columns) &&
             (platforms != [] ==> "platform" in LowerAll(df.value.columns)) &&
             (terms != [] ==> "text" in LowerAll(df.value.columns)))
      ==> !FilterFails(df, platforms, terms)
  {
    df.None? ||
    var cols := LowerAll(df.value.columns);
    Count(cols, "year") != 1 ||
    (platforms != [] && Count(cols, "platform") != 1) ||
    (terms != [] && Count(cols, "text") != 1)
  }

  /** The three narrowing passes of lines 84-105, in the source's order. */
  function FilterRows(rows: seq<Row>, cols: seq<string>, ranges: seq<YearRange>, platforms: seq<string>, terms: seq<string>): (r: seq<Row>)
    ensures |r| <= |rows|
    ensures forall row :: row in r <==> row in rows && Matches(row, cols, ranges, platforms, terms)
  {
    Select(Select(Select(rows, YearTest(cols, ranges)), PlatformTest(cols, platforms)), TextTest(cols, terms))
  }

  /** What `filter_data(df, years, social_networks, text_queries)` returns. */
  function FilterSpec(df: Option<Table>, years: seq<string>, platforms: seq<string>, terms: seq<string>): (r: Table)
    requires df.Some? ==> WellFormed(df.value)
    ensures WellFormed(r)
  {
    if FilterFails(df, platforms, terms) then EmptyTable
    else
      var t := Coerced(Renamed(df.value));
      Table(t.columns, FilterRows(t.rows, t.columns, ValidRanges(years), platforms, terms))
  }

  // ------------------------------------------------------------ method

  /** `filter_data`. The caller's frame is renamed and has its year column
      coerced in place; the answer is the caller's frame itself when no
      narrowing pass ran, and a new frame otherwise. */
  method FilterData(df: Frame?, years: seq<string>, socialNetworks: seq<string>, textQueries: seq<string>)
    returns (result: Frame)
    requires df != null ==> WellFormed(df.Value())
    modifies df
    ensures result.Value() ==
      FilterSpec(if df == null then None else Some(old(df.Value())), years, socialNetworks, textQueries)
    ensures df != null ==> df.Value() == CallerTableAfter(old(df.Value()))
    ensures result == df <==>
      !FilterFails(if df == null then None else Some(old(df.Value())), socialNetworks, textQueries) &&
      ValidRanges(years) == [] && socialNetworks == [] && textQueries == []
    ensures result != df ==> fresh(result)
  {
    if df == null {
      result := new Frame(EmptyTable);
      return;
    }
    ghost var input := df.Value();
    df.RenameColumns();
    if Count(df.columns, "year") != 1 {
      result := new Frame(EmptyTable);
      return;
    }
    var yearColumn := IndexOf(df.columns, "year");
    df.ReplaceColumn(yearColumn, ToNumeric);
    ghost var coerced := df.Value();
    assert coerced == Coerced(Renamed(input));
    var cols := df.columns;

    var yearRanges := ParseYearRanges(years);
    var rows := df.rows;
    result := df;
    if yearRanges != [] {
      rows := Select(rows, YearTest(cols, yearRanges));
      result := new Frame(Table(cols, rows));
    } else {
      SelectAll(rows, YearTest(cols, yearRanges));
    }
    if socialNetworks != [] {
      if Count(cols, "platform") != 1 {
        result := new Frame(EmptyTable);
        return;
      }
      rows := Select(rows, PlatformTest(cols, socialNetworks));
      result := new Frame(Table(cols, rows));
    } else {
      SelectAll(rows, PlatformTest(cols, socialNetworks));
    }
    if textQueries != [] {
      if Count(cols, "text") != 1 {
        result := new Frame(EmptyTable);
        return;
      }
      rows := Select(rows, TextTest(cols, textQueries));
      result := new Frame(Table(cols, rows));
    } else {
      SelectAll(rows, TextTest(cols, textQueries));
    }
  }

  // ------------------------------------------------------------ lemmas

  /** Every range comes from a token that parses to it. */
  lemma {:induction false} ValidRangesSound(tokens: seq<string>, yr: YearRange)
    requires yr in ValidRanges(tokens)
    ensures exists k :: 0 <= k < |tokens| && ParseYearRange(tokens[k]) == Some(yr)
  {
    CollectSound(tokens, ParseYearRange, yr);
  }

  /** Every token that parses contributes its range. */
  lemma {:induction false} ValidRangesComplete(tokens: seq<string>, k: nat)
    requires k < |tokens| && ParseYearRange(tokens[k]).Some?
    ensures ParseYearRange(tokens[k]).value in ValidRanges(tokens)
  {
    CollectComplete(tokens, ParseYearRange, k);
  }

  /** Parsing the tokens of a concatenation parses each part. */
  lemma {:induction false} ValidRangesAppend(a: seq<string>, b: seq<string>)
    ensures ValidRanges(a + b) == ValidRanges(a) + ValidRanges(b)
  {
    CollectAppend(a, b, ParseYearRange);
  }

  /** Two years written in decimal and joined by `-` or `_` parse as that
      range. */
  lemma {:induction false} YearRangeRoundTrip(a: nat, b: nat, sep: char)
    requires sep in RangeSeparators
    ensures ParseYearRange(ShowNat(a) + [sep] + ShowNat(b)) == Some(YearRange(a, b))
  {
    var x, y := ShowNat(a), ShowNat(b);
    assert SepFree(x, RangeSeparators) && SepFree(y, RangeSeparators);
    SplitSepFreePrefix(y, "", RangeSeparators);
    assert y + "" == y;
    assert Split(y, RangeSeparators) == [y];
    var z := [sep] + y;
    assert z[1..] == y;
    assert Split(z, RangeSeparators) == [""] + [y];
    SplitSepFreePrefix(x, z, RangeSeparators);
    assert x + [sep] + y == x + z;
    assert x + "" == x;
    assert Split(x + z, RangeSeparators) == [x, y];
    ParseShowNat(a);
    ParseShowNat(b);
  }

  /** A malformed token is dropped on its own: the result is as if it had
      not been given. */
  lemma {:induction false} MalformedTokenIgnored(df: Option<Table>, a: seq<string>, bad: string, b: seq<string>,
                              platforms: seq<string>, terms: seq<string>)
    requires df.Some? ==> WellFormed(df.value)
    requires ParseYearRange(bad).None?
    ensures FilterSpec(df, a + [bad] + b, platforms, terms) == FilterSpec(df, a + b, platforms, terms)
  {
    ValidRangesAppend(a + [bad], b);
    ValidRangesAppend(a, [bad]);
    ValidRangesAppend(a, b);
    assert ValidRanges([bad]) == [] by {
      assert [bad][..0] == [];
    }
  }

  /** When no token parses, years do not restrict the result at all. */
  lemma {:induction false} NoParsedRangeNoYearFilter(df: Option<Table>, years: seq<string>, platforms: seq<string>, terms: seq<string>)
    requires df.Some? ==> WellFormed(df.value)
    requires forall k :: 0 <= k < |years| ==> ParseYearRange(years[k]).None?
    ensures FilterSpec(df, years, platforms, terms) == FilterSpec(df, [], platforms, terms)
  {
    if ValidRanges(years) != [] {
      ValidRangesSound(years, ValidRanges(years)[0]);
    }
  }

  /** The three passes select exactly the rows that match every active
      criterion. */
  lemma {:induction false} FilterRowsSelect(rows: seq<Row>, cols: seq<string>, ranges: seq<YearRange>, platforms: seq<string>, terms: seq<string>)
    ensures FilterRows(rows, cols, ranges, platforms, terms) == Select(rows, MatchTest(cols, ranges, platforms, terms))
  {
    var yp := row => YearOk(row, cols, ranges) && PlatformOk(row, cols, platforms);
    SelectSelect(rows, YearTest(cols, ranges), PlatformTest(cols, platforms), yp);
    SelectSelect(rows, yp, TextTest(cols, terms), MatchTest(cols, ranges, platforms, terms));
  }

  /** The passes could run in any order: text, platform, year gives the same
      rows. */
  lemma {:induction false} PassOrderIrrelevant(rows: seq<Row>, cols: seq<string>, ranges: seq<YearRange>, platforms: seq<string>, terms: seq<string>)
    ensures Select(Select(Select(rows, TextTest(cols, terms)), PlatformTest(cols, platforms)), YearTest(cols, ranges))
         == FilterRows(rows, cols, ranges, platforms, terms)
  {
    var tp := row => TextOk(row, cols, terms) && PlatformOk(row, cols, platforms);
    var all := row => tp(row) && YearOk(row, cols, ranges);
    SelectSelect(rows, TextTest(cols, terms), PlatformTest(cols, platforms), tp);
    SelectSelect(rows, tp, YearTest(cols, ranges), all);
    SelectCongruent(rows, all, MatchTest(cols, ranges, platforms, terms));
    FilterRowsSelect(rows, cols, ranges, platforms, terms);
  }

  /** When `filter_data` does not fail, its rows are the coerced input rows
      that match every active criterion, in input order, each as often as in
      the input; its columns are the lower-cased input labels. */
  lemma {:induction false} FilterKeepsExactlyMatching(df: Option<Table>, years: seq<string>, platforms: seq<string>, terms: seq<string>)
    requires df.Some? ==> WellFormed(df.value)
    requires !FilterFails(df, platforms, terms)
    ensures var t, r := Coerced(Renamed(df.value)), FilterSpec(df, years, platforms, terms);
      var m := MatchTest(t.columns, ValidRanges(years), platforms, terms);
      && r.columns == LowerAll(df.value.columns)
      && (forall row :: row in r.rows <==> row in t.rows && Matches(row, t.columns, ValidRanges(years), platforms, terms))
      && (forall row :: multiset(r.rows)[row] == if m(row) then multiset(t.rows)[row] else 0)
      && IsSubseq(r.rows, t.rows)
  {
    var t := Coerced(Renamed(df.value));
    var m := MatchTest(t.columns, ValidRanges(years), platforms, terms);
    FilterRowsSelect(t.rows, t.columns, ValidRanges(years), platforms, terms);
    SelectMultiplicity(t.rows, m);
    SelectIsSubseq(t.rows, m);
  }

  /** A column of lower-case labels is unchanged by lower-casing. */
  lemma {:induction false} LowerAllLower(cols: seq<string>)
    ensures LowerAll(LowerAll(cols)) == LowerAll(cols)
  {
    forall k | 0 <= k < |cols| ensures Lower(Lower(cols[k])) == Lower(cols[k]) {
      LowerOfLower(Lower(cols[k]));
    }
  }

  /** Filtering the result again with the same criteria returns it
      unchanged, whether the first call failed or not. */
  lemma {:induction false} FilterIdempotent(df: Option<Table>, years: seq<string>, platforms: seq<string>, terms: seq<string>)
    requires df.Some? ==> WellFormed(df.value)
    ensures var r := FilterSpec(df, years, platforms, terms);
      WellFormed(r) && FilterSpec(Some(r), years, platforms, terms) == r
  {
    var r := FilterSpec(df, years, platforms, terms);
    if FilterFails(df, platforms, terms) {
      assert FilterFails(Some(r), platforms, terms) by {
        assert LowerAll(r.columns) == [];
      }
    } else {
      FilterResultIsFixed(df, years, platforms, terms);
      var ranges := ValidRanges(years);
      FilterRowsSelect(r.rows, r.columns, ranges, platforms, terms);
      SelectAll(r.rows, MatchTest(r.columns, ranges, platforms, terms));
    }
  }

  /** A successful result is already renamed and coerced, and every one of
      its rows matches. */
  lemma {:induction false} FilterResultIsFixed(df: Option<Table>, years: seq<string>, platforms: seq<string>, terms: seq<string>)
    requires df.Some? ==> WellFormed(df.value)
    requires !FilterFails(df, platforms, terms)
    ensures var r := FilterSpec(df, years, platforms, terms);
      && WellFormed(r) && !FilterFails(Some(r), platforms, terms)
      && Coerced(Renamed(r)) == r
      && forall row :: row in r.rows ==> Matches(row, r.columns, ValidRanges(years), platforms, terms)
  {
    var r := FilterSpec(df, years, platforms, terms);
    var t := Coerced(Renamed(df.value));
    FilterKeepsExactlyMatching(df, years, platforms, terms);
    LowerAllLower(df.value.columns);
    assert Renamed(r) == r;
    var k := IndexOf(t.columns, "year");
    forall i | 0 <= i < |r.rows| ensures ToNumeric(r.rows[i][k]) == r.rows[i][k] {
      assert r.rows[i] in t.rows;
    }
    MapColumnFixed(r, k, ToNumeric);
  }

  /** A failed call and a call that matched nothing give the caller the
      same thing: no records. */
  lemma {:induction false} FailureLooksLikeNoMatch(df: Option<Table>, years: seq<string>, platforms: seq<string>, terms: seq<string>)
    requires df.Some? ==> WellFormed(df.value)
    requires !FilterFails(df, platforms, terms) ==>
      var t := Coerced(Renamed(df.value));
      forall row :: row in t.rows ==> !Matches(row, t.columns, ValidRanges(years), platforms, terms)
    ensures Records(FilterSpec(df, years, platforms, terms)) == []
  {
    if !FilterFails(df, platforms, terms) {
      var t := Coerced(Renamed(df.value));
      var ranges := ValidRanges(years);
      FilterRowsSelect(t.rows, t.columns, ranges, platforms, terms);
      SelectNone(t.rows, MatchTest(t.columns, ranges, platforms, terms));
    }
  }

  /** Ranges whose start lies after their end contain no year, so a row is
      kept by no such range. */
  lemma {:induction false} ReversedRangesMatchNothing(df: Option<Table>, years: seq<string>, platforms: seq<string>, terms: seq<string>)
    requires df.Some? ==> WellFormed(df.value)
    requires ValidRanges(years) != []
    requires forall yr :: yr in ValidRanges(years) ==> yr.start > yr.end
    ensures FilterSpec(df, years, platforms, terms).rows == []
  {
    if !FilterFails(df, platforms, terms) {
      FailureLooksLikeNoMatch(df, years, platforms, terms);
    }
  }
}

/** `read_csv_files` (data_reader.py): loading the corpus from a directory
    listing. Each CSV file is read restricted to the common columns, its
    `Text` column lower-cased and its `Platform` column lower-cased and
    stripped; the tables read are concatenated in listing order. */
module CorpusLoader {
  import opened Basics
  import opened Strings
  import opened Tables

  // ------------------------------------------------------------ inputs

  /** What `pd.read_csv` does with one file: it parses the table (before
      `usecols` is applied), or raises a `ValueError` (which covers pandas'
      parser errors, an empty file and a decoding error), or raises
      anything else (a missing or unreadable file). */
  datatype ReadOutcome = Parsed(table: Table) | ReadValueError | ReadOtherError

  /** One name of the directory listing with what reading it would give. */
  datatype DirEntry = DirEntry(name: string, read: ReadOutcome)

  /** pandas de-duplicates the labels of the header it parses. */
  predicate ReadableEntry(e: DirEntry)
  {
    e.read.Parsed? ==> WellFormed(e.read.table) && Distinct(e.read.table.columns)
  }

  predicate ReadableListing(entries: seq<DirEntry>)
  {
    forall e :: e in entries ==> ReadableEntry(e)
  }

  /** `f.endswith('.csv')`: case-sensitive. */
  predicate IsCsvName(name: string)
    ensures IsCsvName(name) <==> exists stem :: name == stem + ".csv"
  {
    assert EndsWith(name, ".csv") ==> name == name[..|name| - 4] + ".csv";
    EndsWith(name, ".csv")
  }

  function CsvTest(): DirEntry -> bool
  {
    (e: DirEntry) => IsCsvName(e.name)
  }

  // ----------------------------------------------------- normalisation

  /** `.str.lower()` on one cell: a non-string becomes NaN. */
  function LowerText(c: Cell): (r: Cell)
    ensures IsNormalText(r)
  {
    if c.Str? then Str(Lower(c.s)) else NaN
  }

  /** `.str.lower().str.strip()` on one cell. */
  function LowerStripPlatform(c: Cell): (r: Cell)
    ensures IsNormalPlatform(r)
  {
    if c.Str? then
      StripKeepsLower(Lower(c.s));
      StripIdempotent(Lower(c.s));
      Str(Strip(Lower(c.s)))
    else NaN
  }

  /** A text cell after loading: missing, or a lower-case string. */
  predicate IsNormalText(c: Cell)
  {
    c.NaN? || (c.Str? && IsLower(c.s))
  }

  /** A platform cell after loading: missing, or a lower-case string with
      no surrounding white space. */
  predicate IsNormalPlatform(c: Cell)
  {
    c.NaN? || (c.Str? && IsLower(c.s) && Strip(c.s) == c.s)
  }

  /** The `.str` accessor refuses a column that pandas did not read as
      strings: one that has rows and not a single string cell. */
  predicate StrAccessorRefuses(t: Table, k: nat)
    requires WellFormed(t) && k < |t.columns|
    ensures StrAccessorRefuses(t, k) ==> |t.rows| > 0
    ensures (exists i :: 0 <= i < |t.rows| && t.rows[i][k].Str?) ==> !StrAccessorRefuses(t, k)
  {
    |t.rows| > 0 && forall i :: 0 <= i < |t.rows| ==> !t.rows[i][k].Str?
  }

  /** `df[name] = df[name].str...` when `name` is a column: None when the
      accessor raises its `AttributeError`. */
  function StrColumn(t: Table, name: string, f: Cell -> Cell): (r: Option<Table>)
    requires WellFormed(t)
    ensures r.None? <==> name in t.columns && StrAccessorRefuses(t, IndexOf(t.columns, name))
    ensures r.Some? ==> r.value.columns == t.columns && |r.value.rows| == |t.rows| && WellFormed(r.value)
    ensures name !in t.columns ==> r == Some(t)
    ensures r.Some? && name in t.columns ==>
      var k := IndexOf(t.columns, name);
      forall i, j :: 0 <= i < |t.rows| && 0 <= j < |t.columns| ==>
        r.value.rows[i][j] == if j == k then f(t.rows[i][j]) else t.rows[i][j]
  {
    if name !in t.columns then Some(t)
    else
      var k := IndexOf(t.columns, name);
      if StrAccessorRefuses(t, k) then None else Some(MapColumn(t, k, f))
  }

  /** The `.str` accessor refuses the `Text` or the `Platform` column. */
  predicate StrRefused(t: Table)
    requires WellFormed(t)
  {
    || ("Text" in t.columns && StrAccessorRefuses(t, IndexOf(t.columns, "Text")))
    || ("Platform" in t.columns && StrAccessorRefuses(t, IndexOf(t.columns, "Platform")))
  }

  /** What the loader makes of a cell under the label `name`. */
  function Normalise(name: string, c: Cell): Cell
  {
    if name == "Text" then LowerText(c)
    else if name == "Platform" then LowerStripPlatform(c)
    else c
  }

  // ------------------------------------------------------ one file

  /** What one CSV entry contributes: a table, nothing (a `ValueError`
      is reported and the file skipped), or the end of the whole load
      (any other exception reaches the outer handler). */
  datatype FileResult = Loaded(table: Table) | Skipped | Aborted

  /** A table as the loader keeps it. */
  predicate LoadedTable(t: Table, common: seq<string>)
  {
    && WellFormed(t) && Distinct(t.columns)
    && (forall c :: c in t.columns ==> c in common)
    && ColumnHolds(t, "Text", IsNormalText)
    && ColumnHolds(t, "Platform", IsNormalPlatform)
  }

  /** Reading one directory entry: a `ValueError` skips the file, any other
      read error or a refused `.str` accessor aborts the load, and otherwise
      the table is cut to the common columns with text lower-cased and
      platform lower-cased and stripped. */
  function ReadFile(e: DirEntry, common: seq<string>): (r: FileResult)
    requires ReadableEntry(e)
    ensures r.Loaded? ==> LoadedTable(r.table, common)
    ensures r.Skipped? <==> e.read.ReadValueError?
    ensures r.Aborted? <==> e.read.ReadOtherError? || (e.read.Parsed? && StrRefused(Restrict(e.read.table, common)))
    ensures r.Loaded? ==> forall c :: c in r.table.columns <==> c in e.read.table.columns && c in common
    ensures r.Loaded? && (exists c :: c in e.read.table.columns && c in common) ==> |r.table.rows| == |e.read.table.rows|
  {
    match e.read
    case ReadValueError => Skipped
    case ReadOtherError => Aborted
    case Parsed(raw) =>
      var t := Restrict(raw, common);
      RestrictLabels(raw, common);
      match StrColumn(t, "Text", LowerText)
      case None => Aborted
      case Some(t1) =>
        TextRewriteKeepsPlatform(t, t1);
        match StrColumn(t1, "Platform", LowerStripPlatform)
        case None => Aborted
        case Some(t2) =>
          NormalisedColumns(t, t1, t2);
          Loaded(t2)
  }

  /** Rewriting `Text` leaves the labels and the `Platform` cells alone, so
      the accessor refuses `Platform` afterwards iff it did before. */
  lemma {:induction false} TextRewriteKeepsPlatform(t: Table, t1: Table)
    requires WellFormed(t) && StrColumn(t, "Text", LowerText) == Some(t1)
    ensures WellFormed(t1) && t1.columns == t.columns
    ensures "Platform" in t.columns ==>
      (StrAccessorRefuses(t1, IndexOf(t.columns, "Platform")) <==> StrAccessorRefuses(t, IndexOf(t.columns, "Platform")))
  {
    if "Platform" in t.columns && "Text" in t.columns {
      var p := IndexOf(t.columns, "Platform");
      assert forall i :: 0 <= i < |t.rows| ==> t1.rows[i][p] == t.rows[i][p];
    }
  }

  /** Each cell of a table the loader keeps from a parsed file: the file's
      cell in the same row under the same label, normalised under `Text`
      and `Platform`. */
  lemma {:induction false} ReadFileCell(e: DirEntry, common: seq<string>, i: nat, j: nat)
    requires ReadableEntry(e) && e.read.Parsed? && ReadFile(e, common).Loaded?
    requires i < |ReadFile(e, common).table.rows| && j < |ReadFile(e, common).table.columns|
    ensures var raw, u := e.read.table, ReadFile(e, common).table;
      && u.columns[j] in raw.columns
      && u.rows[i][j] == Normalise(u.columns[j], raw.rows[i][IndexOf(raw.columns, u.columns[j])])
  {
    var raw := e.read.table;
    var t1 := StrColumn(Restrict(raw, common), "Text", LowerText).value;
    RestrictedCellNormalised(raw, common, t1, ReadFile(e, common).table, i, j);
  }

  /** One cell after `StrColumn` succeeded: rewritten under `name`, kept
      elsewhere. */
  lemma {:induction false} StrColumnCell(t: Table, name: string, f: Cell -> Cell, r: Table, i: nat, j: nat)
    requires WellFormed(t) && Distinct(t.columns) && StrColumn(t, name, f) == Some(r)
    requires i < |t.rows| && j < |t.columns|
    ensures r.rows[i][j] == if t.columns[j] == name then f(t.rows[i][j]) else t.rows[i][j]
  {
    if name in t.columns {
      IndexOfDistinct(t.columns, j);
    }
  }

  /** One cell of `ReadFileCell`. */
  lemma {:induction false} RestrictedCellNormalised(raw: Table, common: seq<string>, t1: Table, u: Table, i: nat, j: nat)
    requires WellFormed(raw) && Distinct(raw.columns)
    requires StrColumn(Restrict(raw, common), "Text", LowerText) == Some(t1)
    requires StrColumn(t1, "Platform", LowerStripPlatform) == Some(u)
    requires i < |u.rows| && j < |u.columns|
    ensures u.columns[j] in raw.columns
    ensures u.rows[i][j] == Normalise(u.columns[j], raw.rows[i][IndexOf(raw.columns, u.columns[j])])
  {
    var t := Restrict(raw, common);
    RestrictLabels(raw, common);
    var name := t.columns[j];
    IndexOfDistinct(t.columns, j);
    RestrictCell(raw, common, i, name);
    StrColumnCell(t, "Text", LowerText, t1, i, j);
    StrColumnCell(t1, "Platform", LowerStripPlatform, u, i, j);
  }

  /** The columns rewritten by `ReadFile` hold normalised cells. */
  lemma {:induction false} NormalisedColumns(t: Table, t1: Table, t2: Table)
    requires WellFormed(t)
    requires StrColumn(t, "Text", LowerText) == Some(t1)
    requires StrColumn(t1, "Platform", LowerStripPlatform) == Some(t2)
    ensures WellFormed(t2) && t2.columns == t.columns
    ensures ColumnHolds(t2, "Text", IsNormalText) && ColumnHolds(t2, "Platform", IsNormalPlatform)
  {
    if "Text" in t.columns {
      MapColumnEstablishes(t, "Text", LowerText, IsNormalText);
    }
    assert ColumnHolds(t1, "Text", IsNormalText);
    if "Platform" in t1.columns {
      MapColumnEstablishes(t1, "Platform", LowerStripPlatform, IsNormalPlatform);
      MapColumnPreserves(t1, IndexOf(t1.columns, "Platform"), LowerStripPlatform, "Text", IsNormalText);
    }
  }

  /** The tables read from `entries`, in order; None as soon as one read
      ends the load. */
  function ReadAll(entries: seq<DirEntry>, common: seq<string>): (r: Option<seq<Table>>)
    requires ReadableListing(entries)
    ensures r.Some? ==> |r.value| <= |entries|
    ensures r.Some? ==> forall k :: 0 <= k < |r.value| ==> LoadedTable(r.value[k], common)
    decreases |entries|
  {
    if entries == [] then Some([])
    else
      var n := |entries| - 1;
      match ReadAll(entries[..n], common)
      case None => None
      case Some(frames) =>
        match ReadFile(entries[n], common)
        case Aborted => None
        case Skipped => Some(frames)
        case Loaded(t) => Some(frames + [t])
  }

  /** What `read_csv_files` returns, for a listing that `os.listdir` may
      fail to produce. */
  function LoadSpec(listing: Option<seq<DirEntry>>, common: seq<string>): (r: Option<Table>)
    requires listing.Some? ==> ReadableListing(listing.value)
    ensures listing.None? ==> r.None?
    ensures r.Some? ==>
      && WellFormed(r.value)
      && (forall c :: c in r.value.columns ==> c in common)
      && ColumnHolds(r.value, "Text", IsNormalText)
      && ColumnHolds(r.value, "Platform", IsNormalPlatform)
  {
    if listing.None? then None else LoadCsv(Select(listing.value, CsvTest()), common)
  }

  /** Lines 21-46 once the CSV names are known: None when a read ends the
      load or no table was read. With no CSV name nothing is read, so the
      `FileNotFoundError` of line 22 and the `ValueError` of line 42 end
      the same way. */
  function LoadCsv(csvFiles: seq<DirEntry>, common: seq<string>): (r: Option<Table>)
    requires ReadableListing(csvFiles)
    ensures csvFiles == [] ==> r.None?
    ensures r.Some? ==>
      && WellFormed(r.value)
      && (forall c :: c in r.value.columns ==> c in common)
      && ColumnHolds(r.value, "Text", IsNormalText)
      && ColumnHolds(r.value, "Platform", IsNormalPlatform)
  {
    match ReadAll(csvFiles, common)
    case None => None
    case Some(frames) =>
      if frames == [] then None
      else
        ConcatLoaded(frames, common);
        Some(Concat(frames))
  }

  // ------------------------------------------------------------ method

  /** The loop of lines 25-37: each table read is appended; an exception
      other than `ValueError` ends the load. */
  method ReadFrames(csvFiles: seq<DirEntry>, commonColumns: seq<string>)
    returns (dataFrames: Option<seq<Table>>)
    requires ReadableListing(csvFiles)
    ensures dataFrames == ReadAll(csvFiles, commonColumns)
  {
    var frames: seq<Table> := [];
    var i := 0;
    while i < |csvFiles|
      invariant 0 <= i <= |csvFiles|
      invariant ReadAll(csvFiles[..i], commonColumns) == Some(frames)
    {
      ReadAllStep(csvFiles, i, frames, commonColumns);
      var result := ReadFile(csvFiles[i], commonColumns);
      if result.Aborted? {
        return None;
      }
      if result.Loaded? {
        frames := frames + [result.table];
      }
      i := i + 1;
    }
    assert csvFiles[..|csvFiles|] == csvFiles;
    dataFrames := Some(frames);
  }

  /** `read_csv_files`: None when the directory cannot be listed, when a
      read ends the load or when no table was read; otherwise the tables
      read, concatenated. */
  method ReadCsvFiles(listing: Option<seq<DirEntry>>, commonColumns: seq<string>)
    returns (combined: Option<Table>)
    requires listing.Some? ==> ReadableListing(listing.value)
    ensures combined == LoadSpec(listing, commonColumns)
  {
    if listing.None? {
      return None;
    }
    var csvFiles := Select(listing.value, CsvTest());
    var dataFrames := ReadFrames(csvFiles, commonColumns);
    if dataFrames.None? || dataFrames.value == [] {
      return None;
    }
    combined := Some(Concat(dataFrames.value));
  }

  // ------------------------------------------------------------ lemmas

  /** Once a prefix ends the load, the whole listing does. */
  lemma {:induction false} ReadAllAbortStays(entries: seq<DirEntry>, i: nat, common: seq<string>)
    requires ReadableListing(entries) && i <= |entries|
    requires ReadAll(entries[..i], common).None?
    ensures ReadAll(entries, common).None?
    decreases |entries| - i
  {
    if i < |entries| {
      assert entries[..i + 1][..i] == entries[..i];
      ReadAllAbortStays(entries, i + 1, common);
    } else {
      assert entries[..i] == entries;
    }
  }

  /** What the tables read so far become once one more file is read. */
  function Absorb(acc: Option<seq<Table>>, r: FileResult): Option<seq<Table>>
  {
    match acc
    case None => None
    case Some(frames) =>
      match r
      case Aborted => None
      case Skipped => Some(frames)
      case Loaded(t) => Some(frames + [t])
  }

  /** The tables of two loads in turn; None if either ended early. */
  function Joined(x: Option<seq<Table>>, y: Option<seq<Table>>): Option<seq<Table>>
  {
    if x.Some? && y.Some? then Some(x.value + y.value) else None
  }

  /** Reading one more file after two loads is reading it after the
      second. */
  lemma {:induction false} AbsorbJoined(x: Option<seq<Table>>, y: Option<seq<Table>>, r: FileResult)
    ensures Absorb(Joined(x, y), r) == Joined(x, Absorb(y, r))
  {
    if x.Some? && y.Some? && r.Loaded? {
      assert x.value + y.value + [r.table] == x.value + (y.value + [r.table]);
    }
  }

  /** One turn of the loop of lines 25-37: what reading entry `i` makes of
      the tables read before it. */
  lemma {:induction false} ReadAllStep(entries: seq<DirEntry>, i: nat, frames: seq<Table>, common: seq<string>)
    requires ReadableListing(entries) && i < |entries|
    requires ReadAll(entries[..i], common) == Some(frames)
    ensures ReadAll(entries[..i + 1], common) == Absorb(Some(frames), ReadFile(entries[i], common))
    ensures ReadFile(entries[i], common).Aborted? ==> ReadAll(entries, common).None?
  {
    PrefixSnoc(entries, i);
    ReadAllSnoc(entries[..i], entries[i], common);
    if ReadFile(entries[i], common).Aborted? {
      ReadAllAbortStays(entries, i + 1, common);
    }
  }

  /** Reading one more entry. */
  lemma {:induction false} ReadAllSnoc(s: seq<DirEntry>, e: DirEntry, common: seq<string>)
    requires ReadableListing(s) && ReadableEntry(e)
    ensures ReadableListing(s + [e])
    ensures ReadAll(s + [e], common) == Absorb(ReadAll(s, common), ReadFile(e, common))
  {
    assert (s + [e])[..|s|] == s;
    assert (s + [e])[|s|] == e;
  }

  /** Reading a listing of one entry. */
  lemma {:induction false} ReadAllSingle(e: DirEntry, common: seq<string>)
    requires ReadableEntry(e)
    ensures ReadableListing([e])
    ensures ReadAll([e], common) ==
      match ReadFile(e, common)
      case Aborted => None
      case Skipped => Some([])
      case Loaded(t) => Some([t])
  {
    assert [e][..0] == [] && [e][0] == e;
    assert ReadAll([], common) == Some([]);
    match ReadFile(e, common)
    case Aborted =>
    case Skipped =>
    case Loaded(t) => assert [] + [t] == [t];
  }

  /** Reading a concatenation of listings reads each part. */
  lemma {:induction false} ReadAllAppend(a: seq<DirEntry>, b: seq<DirEntry>, common: seq<string>)
    requires ReadableListing(a) && ReadableListing(b)
    ensures ReadableListing(a + b)
    ensures ReadAll(a + b, common) == Joined(ReadAll(a, common), ReadAll(b, common))
    decreases |b|
  {
    if b == [] {
      assert a + b == a;
      assert ReadAll(b, common) == Some([]);
      if ReadAll(a, common).Some? {
        assert ReadAll(a, common).value + [] == ReadAll(a, common).value;
      }
    } else {
      var n := |b| - 1;
      var b' := b[..n];
      assert b == b' + [b[n]];
      assert ReadableListing(b');
      assert a + b == (a + b') + [b[n]];
      ReadAllAppend(a, b', common);
      ReadAllSnoc(a + b', b[n], common);
      ReadAllSnoc(b', b[n], common);
      AbsorbJoined(ReadAll(a, common), ReadAll(b', common), ReadFile(b[n], common));
    }
  }

  /** The concatenation of loaded tables keeps their guarantees. */
  lemma {:induction false} ConcatLoaded(frames: seq<Table>, common: seq<string>)
    requires forall k :: 0 <= k < |frames| ==> WellFormed(frames[k])
    requires forall k :: 0 <= k < |frames| ==> LoadedTable(frames[k], common)
    ensures var r := Concat(frames);
      && (forall c :: c in r.columns ==> c in common)
      && ColumnHolds(r, "Text", IsNormalText)
      && ColumnHolds(r, "Platform", IsNormalPlatform)
  {
    var r := Concat(frames);
    forall c | c in r.columns ensures c in common {
      var k :| 0 <= k < |frames| && c in frames[k].columns;
    }
    ConcatHolds(frames, "Text", IsNormalText);
    ConcatHolds(frames, "Platform", IsNormalPlatform);
  }

  /** The CSV entries of a listing with one entry singled out. */
  lemma {:induction false} CsvAround(a: seq<DirEntry>, e: DirEntry, b: seq<DirEntry>)
    ensures Select(a + [e] + b, CsvTest()) ==
      Select(a, CsvTest()) + (if IsCsvName(e.name) then [e] else []) + Select(b, CsvTest())
  {
    SelectAround(a, e, b, CsvTest());
  }

  /** Reading a listing with one entry singled out. */
  lemma {:induction false} ReadAllAround(a: seq<DirEntry>, e: DirEntry, b: seq<DirEntry>, common: seq<string>)
    requires ReadableListing(a) && ReadableEntry(e) && ReadableListing(b)
    ensures ReadableListing(a + [e] + b) && ReadableListing(a + b)
    ensures ReadAll(a + [e] + b, common) ==
      match ReadFile(e, common)
      case Aborted => None
      case Skipped => ReadAll(a + b, common)
      case Loaded(t) =>
        if ReadAll(a, common).Some? && ReadAll(b, common).Some?
        then Some(ReadAll(a, common).value + [t] + ReadAll(b, common).value)
        else None
  {
    ReadAllSnoc([], e, common);
    assert [] + [e] == [e];
    ReadAllAppend(a, [e], common);
    ReadAllAppend(a + [e], b, common);
    ReadAllAppend(a, b, common);
    if ReadAll(a, common).Some? && ReadFile(e, common).Skipped? {
      assert ReadAll(a, common).value + [] == ReadAll(a, common).value;
    }
  }

  /** Names not ending in `.csv` are never read: adding one changes
      nothing. */
  lemma {:induction false} NonCsvIgnored(a: seq<DirEntry>, e: DirEntry, b: seq<DirEntry>, common: seq<string>)
    requires ReadableListing(a + [e] + b) && !IsCsvName(e.name)
    ensures ReadableListing(a + b)
    ensures LoadSpec(Some(a + [e] + b), common) == LoadSpec(Some(a + b), common)
  {
    assert forall x :: x in a + b ==> x in a + [e] + b;
    CsvAround(a, e, b);
    SelectAppend(a, b, CsvTest());
    assert Select(a, CsvTest()) + [] == Select(a, CsvTest());
  }

  /** A CSV file with none of the common columns is read as a frame with
      no columns and no rows. */
  lemma {:induction false} NoCommonColumnReadsEmpty(e: DirEntry, common: seq<string>)
    requires ReadableEntry(e) && e.read.Parsed?
    requires forall c :: c in e.read.table.columns ==> c !in common
    ensures ReadFile(e, common) == Loaded(EmptyTable)
  {
  }

  /** A CSV file whose read raises `ValueError` is skipped: the load is as
      if it were not listed, and the files after it are still read. */
  lemma {:induction false} SkippedFileIgnored(a: seq<DirEntry>, e: DirEntry, b: seq<DirEntry>, common: seq<string>)
    requires ReadableListing(a + [e] + b) && e.read.ReadValueError?
    ensures ReadableListing(a + b)
    ensures LoadSpec(Some(a + [e] + b), common) == LoadSpec(Some(a + b), common)
  {
    assert forall x :: x in a + b ==> x in a + [e] + b;
    var ca, cb := Select(a, CsvTest()), Select(b, CsvTest());
    CsvAround(a, e, b);
    SelectAppend(a, b, CsvTest());
    if IsCsvName(e.name) {
      assert forall x :: x in ca ==> x in a;
      assert forall x :: x in cb ==> x in b;
      assert e in a + [e] + b;
      SkippedReadIgnored(ca, e, cb, common);
      SameReadsSameLoad(ca + [e] + cb, ca + cb, common);
    } else {
      assert ca + [] == ca;
    }
  }

  /** The load depends on the listing only through the tables read. */
  lemma {:induction false} SameReadsSameLoad(x: seq<DirEntry>, y: seq<DirEntry>, common: seq<string>)
    requires ReadableListing(x) && ReadableListing(y)
    requires ReadAll(x, common) == ReadAll(y, common)
    ensures LoadCsv(x, common) == LoadCsv(y, common)
  {
  }

  /** Reading past a file that raises `ValueError` reads the rest as if it
      were absent. */
  lemma {:induction false} SkippedReadIgnored(a: seq<DirEntry>, e: DirEntry, b: seq<DirEntry>, common: seq<string>)
    requires ReadableListing(a) && ReadableEntry(e) && ReadableListing(b) && e.read.ReadValueError?
    ensures ReadableListing(a + [e] + b) && ReadableListing(a + b)
    ensures ReadAll(a + [e] + b, common) == ReadAll(a + b, common)
  {
    ReadAllAround(a, e, b, common);
  }

  /** One CSV file whose read raises anything but `ValueError` makes the
      whole load None, wherever it is listed. */
  lemma {:induction false} AbortingFileSpoilsLoad(a: seq<DirEntry>, e: DirEntry, b: seq<DirEntry>, common: seq<string>)
    requires ReadableListing(a + [e] + b) && IsCsvName(e.name) && e.read.ReadOtherError?
    ensures LoadSpec(Some(a + [e] + b), common).None?
  {
    var ca, cb := Select(a, CsvTest()), Select(b, CsvTest());
    CsvAround(a, e, b);
    assert forall x :: x in ca ==> x in a + [e] + b;
    assert forall x :: x in cb ==> x in a + [e] + b;
    ReadAllAround(ca, e, cb, common);
  }

  /** A listing whose CSV files all raise `ValueError` loads nothing. */
  lemma {:induction false} AllSkippedLoadsNothing(entries: seq<DirEntry>, common: seq<string>)
    requires ReadableListing(entries)
    requires forall k :: 0 <= k < |entries| ==> IsCsvName(entries[k].name) ==> entries[k].read.ReadValueError?
    ensures LoadSpec(Some(entries), common).None?
    decreases |entries|
  {
    if entries == [] {
      assert ReadAll([], common) == Some([]);
    } else {
      var n := |entries| - 1;
      var init := entries[..n];
      assert entries == init + [entries[n]] + [];
      assert forall x :: x in init ==> x in entries;
      AllSkippedLoadsNothing(init, common);
      if IsCsvName(entries[n].name) {
        SkippedFileIgnored(init, entries[n], [], common);
      } else {
        NonCsvIgnored(init, entries[n], [], common);
      }
      assert init + [] == init;
    }
  }

  /** A listing with one readable CSV file loads exactly that file's
      normalised table. */
  lemma {:induction false} SingleFileLoad(e: DirEntry, common: seq<string>)
    requires ReadableEntry(e) && IsCsvName(e.name)
    requires ReadFile(e, common).Loaded?
    ensures LoadSpec(Some([e]), common) == Some(ReadFile(e, common).table)
  {
    var t := ReadFile(e, common).table;
    assert Select([e], CsvTest()) == [e] by {
      CsvAround([], e, []);
      assert [] + [e] + [] == [e];
    }
    ReadAllSingle(e, common);
    ConcatSingle(t);
  }
}

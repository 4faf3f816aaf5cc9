# Search pipeline of the social-media analysis backend

This project models the core of a small Flask service that searches a
corpus of social-media posts (open-data CSV files with a year, a platform
and a text per post), narrows it by year ranges, platforms and query terms,
and annotates every post that remains with a sentiment score and an emotion
classification. It models the pipeline behind the `/api/busqueda` endpoint,
in four parts:

- **Filter engine** (`filter_data`, `data_reader.py`): the caller's table
  is renamed to lower-case labels and its `year` column coerced in place
  (class `Tables.Frame`, method `FilterEngine.FilterData`). Then three
  optional passes narrow it: year-range tokens such as `2010-2014` or
  `2010_2014` are parsed one by one and malformed ones dropped; platforms
  must equal a lower-cased criterion; the text must contain some query term
  literally, ignoring case. Every failure (no table, a missing or repeated
  `year`, `platform` or `text` label) gives an empty table. The
  specification is `FilterEngine.FilterSpec`: the rows that satisfy every
  active criterion, in input order.
- **Corpus loader** (`read_csv_files`, `data_reader.py`): over an abstract
  directory listing, each `.csv` entry is read restricted to the common
  columns, its `Text` lower-cased and its `Platform` lower-cased and
  stripped. A `ValueError` skips the file; any other exception ends the
  whole load with `None`. The tables are concatenated in listing order
  (`CorpusLoader.LoadSpec`).
- **Enrichment loop** (`analyze_data`, `analyze_data.py`): the record
  dictionaries are objects (`Enrichment.RecordDict`) annotated in place. A
  record without text is kept with both annotations `None`; a record whose
  analyzer call raises is dropped and left untouched; the loop goes on
  either way (`Enrichment.Kept`, `Enrichment.AnalyzeSpec`).
- **Endpoint** (`buscar_resultados`, `app.py`): the comma-separated
  parameters, the query terms (alphanumeric tokens that are not
  stopwords), the `openData` gate, and the echo of the terms joined by
  spaces (`SearchEndpoint.BuscarResultados` composes everything).

Files: `basics.dfy` (option type, order-preserving selection,
subsequences), `strings.dfy` (the Python string operations used),
`tables.dfy` (cells, positional tables, concatenation, record
dictionaries, the mutable frame), `filter.dfy`, `loader.dfy`,
`analyze.dfy`, `app.dfy`.

Where the design description of the service and the code disagree, the
model follows the code:

- A CSV file that has none of the common columns is not skipped: `usecols`
  keeps no column, pandas reads it as a frame with no columns and no rows,
  and that empty frame is appended. It adds nothing to the concatenation,
  but it counts as a table read, so a listing of only such files loads an
  empty table rather than `None` (`CorpusLoader.NoCommonColumnReadsEmpty`).
- Unless a read raises something other than `ValueError`, the load gives
  `None` only when no table was read; tables with no rows count as read.
- Only a `ValueError` skips a file. Any other exception ends the whole load
  with `None`. This includes an `AttributeError` from `.str` on a `Text` or
  `Platform` column that pandas did not read as strings.
- A failed filter is not reported as a distinct error: it returns an empty
  table, which the caller cannot tell apart from no match
  (`FilterEngine.FailureLooksLikeNoMatch`).
- When `fuente` does not contain `openData`, `data` is never bound, so
  line 99 of `app.py` raises a `NameError`. The request fails; it does not
  get an empty answer (`SearchEndpoint.Outcome.Unbound`).

## Model

| member | source | states |
|---|---|---|
| Strings.Lower | data_reader.py:33 | `str.lower` on ASCII keeps the length, lowers exactly the upper-case letters and leaves a string with no upper-case letter |
| Strings.LowerAll | data_reader.py:93 | the list comprehension lower-cases each criterion, position by position |
| Strings.LeadingSpaces | data_reader.py:35 | the whitespace that `strip` cuts at the front: a prefix of whitespace followed by the end or by a non-space |
| Strings.TrailingSpaces | data_reader.py:35 | the whitespace that `strip` cuts at the back: a suffix of whitespace preceded by the start or by a non-space |
| Strings.Strip | data_reader.py:35 | `str.strip` gives a string no longer than its input that neither starts nor ends with whitespace |
| Strings.StripIsSlice | data_reader.py:35 | what `strip` returns is the middle slice of its input, with only whitespace cut off on either side |
| Strings.StripTrimmed | data_reader.py:35 | a string with no whitespace at either end is left as it is |
| Strings.StripIdempotent | data_reader.py:35 | stripping twice is stripping once |
| Strings.StripKeepsLower | data_reader.py:35 | stripping a lower-case string leaves it lower-case, so `.str.lower().str.strip()` yields lower-case values |
| Strings.Split | data_reader.py:79 | splitting at a set of separator characters gives one more piece than there are separators and no piece holds a separator |
| Strings.JoinSplit | app.py:71-73 | joining the pieces of a split with the separator rebuilds the string |
| Strings.SplitJoin | app.py:112 | splitting a join of separator-free pieces gives the pieces back |
| Strings.Join | app.py:112 | `sep.join` starts with the first piece and, over separator-free pieces, holds one separator fewer than there are pieces |
| Strings.OccurrencesAppend | app.py:112 | the separators of a concatenation are those of its parts |
| Strings.Contains | data_reader.py:105 | a substring is no longer than the string, and a prefix or a suffix is a substring |
| Strings.IsAlnum | app.py:78 | `str.isalnum` holds only for a non-empty string with no whitespace and no comma |
| Strings.ParseShowNat | data_reader.py:79 | `int()` reads a decimal numeral back as its value |
| Strings.ParseShowNatPlus | data_reader.py:79 | `int()` accepts a leading `+` before the numeral |
| Strings.ParseSignedDigits | data_reader.py:79 | `int()` of a sign followed by digits is the signed value of the digits |
| Strings.ParseDigits | data_reader.py:79 | `int()` of a string of digits is its decimal value, leading zeros allowed |
| Strings.ParseInt | data_reader.py:79 | a string that `int()` accepts contains only digits, whitespace and signs |
| Tables.ToNumeric | data_reader.py:68 | `to_numeric(errors='coerce')` yields a number or NaN and keeps numbers unchanged; a string becomes a number iff `int()` accepts it, and then that number |
| Tables.ToNumericShowNat | data_reader.py:68 | a decimal numeral is coerced to its value |
| Tables.MapColumn | data_reader.py:68 | overwriting one column changes only the cells of that column, each to `f` of its old value |
| Tables.KeptIndices | data_reader.py:29 | the positions `usecols` keeps are, in increasing order, exactly those whose label is in the common list |
| Tables.KeptLabels | data_reader.py:29 | the labels at the kept positions are exactly the file's labels that are common, and stay distinct |
| Tables.Restrict | data_reader.py:29 | the restricted table is well formed; it keeps every row when the file has some common column, and is the table with no columns and no rows when it has none |
| Tables.RestrictLabels | data_reader.py:29 | `usecols` keeps exactly the file's columns that are in the common list, with no duplicated label |
| Tables.RestrictCell | data_reader.py:29 | a kept column holds the same cells as in the file |
| Tables.MapColumnFixed | data_reader.py:68 | rewriting a column by a function that fixes each of its cells changes nothing |
| Tables.MapColumnEstablishes | data_reader.py:33-35 | a column rewritten by a function all of whose results have a property has it in every row |
| Tables.MapColumnPreserves | data_reader.py:33-35 | rewriting one column keeps what held under another label |
| Tables.Concat | data_reader.py:45 | `pd.concat(ignore_index=True)` has the union of the labels, no duplicated label, and as many rows as all tables together, every row as wide as the labels |
| Tables.ConcatHolds | data_reader.py:45 | a property of every cell under a label survives concatenation when NaN, the filler, has it |
| Tables.ConcatSingle | data_reader.py:45 | concatenating a single table gives that table |
| Tables.ConcatRowsAt | data_reader.py:45 | row `i` of table `k` lands at position `i` after the rows of the tables before it, laid out under the union of labels |
| Tables.ConcatCell | data_reader.py:45 | each cell of the concatenation is the cell of the table its row came from under the same label, or NaN when that table lacks the label |
| Tables.RowRecord | app.py:102 | one row as a dictionary: its keys are the labels, and each label maps to the cell of its last column |
| Tables.Records | app.py:102 | `to_dict(orient='records')` gives one dictionary per row whose keys are the labels, and in row `i` each label maps to that row's cell under the label's last column (under its only column when labels are distinct) |
| Tables.Count | data_reader.py:68 | no column carries a label iff it is not among the labels; among distinct labels, at most one does |
| Tables.Frame.constructor | data_reader.py:45 | a frame holds the table it is built from |
| Tables.Frame.RenameColumns | data_reader.py:67 | the caller's frame gets lower-cased labels and keeps its rows |
| Tables.Frame.ReplaceColumn | data_reader.py:68 | the caller's frame gets one column replaced cell by cell |
| FilterEngine.ParseYearRange | data_reader.py:79 | a token parses as a range only when it contains exactly one `-` or `_` |
| Basics.Collect | data_reader.py:75-82 | the values collected from a sequence (here the ranges parsed from the year tokens) are never more than its elements |
| FilterEngine.ParseYearRanges | data_reader.py:75-82 | the loop collects exactly the ranges of the tokens that parse, in token order |
| Basics.CollectSnoc | data_reader.py:77-82 | one more token adds its range iff it parses |
| Basics.CollectSound | data_reader.py:77-82 | every collected value comes from an element that yields it |
| Basics.CollectComplete | data_reader.py:77-82 | every element that yields a value contributes it |
| Basics.CollectAppend | data_reader.py:76-82 | collecting from a concatenation collects from each part in turn |
| FilterEngine.ValidRanges | data_reader.py:75-82 | no more ranges than tokens; a range is collected iff some token parses as it |
| FilterEngine.ValidRangesSound | data_reader.py:77-82 | every collected range is the parse of some token |
| FilterEngine.ValidRangesComplete | data_reader.py:77-82 | every token that parses contributes its range |
| FilterEngine.ValidRangesAppend | data_reader.py:76-82 | tokens are parsed independently: the ranges of a concatenation are the concatenated ranges |
| FilterEngine.YearRangeRoundTrip | data_reader.py:79 | two decimal years joined by `-` or `_` parse as exactly that range |
| FilterEngine.MalformedTokenIgnored | data_reader.py:81-82 | a malformed token is dropped on its own: the result is as if it had not been given |
| FilterEngine.NoParsedRangeNoYearFilter | data_reader.py:84 | when no token parses, years do not restrict the result |
| FilterEngine.Renamed | data_reader.py:67 | renaming keeps a well-formed table well-formed |
| FilterEngine.Coerced | data_reader.py:68 | coercing the year keeps the labels and the shape |
| FilterEngine.CallerTableAfter | data_reader.py:67-68 | the caller's table ends with lower-cased labels |
| FilterEngine.FilterSpec | data_reader.py:65-111 | the answer is a well-formed table |
| FilterEngine.InAnyRange | data_reader.py:84-85 | a missing or non-numeric year is in no range; no year is in reversed ranges; both ends of a range are inside it |
| FilterEngine.PlatformIn | data_reader.py:92-94 | only a lower-case platform can match; a lower-case platform listed verbatim among the criteria matches |
| FilterEngine.TextMatches | data_reader.py:102-105 | a match needs a string text and some term; a term occurring verbatim matches, and so does an empty term, whatever the text |
| FilterEngine.FilterFails | data_reader.py:65-111 | a filter that does not fail had a table with a `year` label, and a `platform` or `text` label when that pass runs; distinct lower-cased labels that include those never fail |
| FilterEngine.FilterData | data_reader.py:52-111 | the answer is `FilterSpec`; the caller's frame is renamed and its year coerced in place; the caller's frame itself comes back exactly when no pass ran, a new frame otherwise |
| FilterEngine.FilterRowsSelect | data_reader.py:84-105 | the three passes select exactly the rows satisfying every active criterion |
| FilterEngine.FilterRows | data_reader.py:84-105 | the three passes keep no more rows than given, and a row survives iff it is given and satisfies all three criteria |
| FilterEngine.PassOrderIrrelevant | data_reader.py:84-105 | running the passes text, platform, year gives the same rows |
| FilterEngine.FilterKeepsExactlyMatching | data_reader.py:84-105 | on success a row is in the answer iff it is a coerced input row that matches; each kept row as often as in the input, in input order; labels lower-cased |
| FilterEngine.LowerAllLower | data_reader.py:67 | renaming lower-cased labels again changes nothing |
| FilterEngine.FilterResultIsFixed | data_reader.py:65-105 | a successful answer is already renamed and coerced, and all its rows match |
| FilterEngine.FilterIdempotent | data_reader.py:65-111 | filtering the answer again with the same criteria returns it unchanged, after a failure too |
| FilterEngine.FailureLooksLikeNoMatch | data_reader.py:109-111 | a failed call and a call that matched nothing both give the caller no records |
| FilterEngine.ReversedRangesMatchNothing | data_reader.py:85 | when every parsed range starts after it ends, no row is kept |
| CorpusLoader.LowerText | data_reader.py:33 | `.str.lower()` gives NaN or a lower-case string |
| CorpusLoader.LowerStripPlatform | data_reader.py:35 | `.str.lower().str.strip()` gives NaN or a lower-case string with no surrounding whitespace |
| CorpusLoader.StrAccessorRefuses | data_reader.py:33-35 | `.str` raises only on a column with rows, and never on a column holding some string |
| CorpusLoader.StrColumn | data_reader.py:32-35 | the accessor raises iff the column exists, has rows and holds no string; an absent column leaves the table as it is; otherwise every cell of the column is rewritten by the function and every other cell is kept |
| CorpusLoader.ReadFile | data_reader.py:28-39 | a file read is skipped iff its read raised `ValueError`; it aborts the load iff its read raised anything else or the `.str` accessor refuses `Text` or `Platform`; a loaded table has exactly the file's common columns, every row of the file (when any column is kept), and normalised text and platform |
| CorpusLoader.ReadFileCell | data_reader.py:29-35 | each cell of a loaded file is the file's cell under the same label, lower-cased under `Text` and lower-cased and stripped under `Platform` |
| CorpusLoader.StrColumnCell | data_reader.py:32-35 | with distinct labels, a rewritten cell is the function of the old cell under the rewritten label and the old cell elsewhere |
| CorpusLoader.TextRewriteKeepsPlatform | data_reader.py:32-35 | rewriting `Text` keeps the labels, so the `Platform` accessor raises afterwards iff it would have before |
| CorpusLoader.NormalisedColumns | data_reader.py:32-35 | after both rewrites the `Text` and `Platform` cells are normalised |
| CorpusLoader.ReadAll | data_reader.py:25-39 | the tables read are no more than the files, and each is a normalised table of common columns |
| CorpusLoader.ReadFrames | data_reader.py:25-39 | the loop collects exactly the tables `ReadAll` reads, or ends with `None` where a read raises anything but `ValueError` |
| CorpusLoader.ReadCsvFiles | data_reader.py:6-49 | the function returns exactly `LoadSpec` of the listing |
| CorpusLoader.ReadAllStep | data_reader.py:26-39 | one turn of the loop appends the file's table, skips it, or ends the load, and a load ended there stays ended |
| CorpusLoader.AbsorbJoined | data_reader.py:26-39 | reading a file after two loads in turn is reading it after the second |
| CorpusLoader.ReadAllAbortStays | data_reader.py:47-49 | once one read ends the load, the files after it do not matter |
| CorpusLoader.ReadAllSnoc | data_reader.py:26-39 | reading one more file adds its table, skips it, or ends the load |
| CorpusLoader.ReadAllSingle | data_reader.py:26-39 | reading a single file gives its table, nothing, or ends the load |
| CorpusLoader.ReadAllAppend | data_reader.py:26-39 | reading two listings in turn concatenates their tables |
| CorpusLoader.ReadAllAround | data_reader.py:26-39 | a file in the middle of a listing contributes its table in place, is skipped, or ends the load |
| CorpusLoader.ConcatLoaded | data_reader.py:45 | the concatenation of loaded tables keeps only common columns and normalised text and platform |
| CorpusLoader.LoadSpec | data_reader.py:17-49 | an unreadable folder loads nothing; a loaded corpus is a well-formed table with only common columns, lower-case texts and lower-case stripped platforms |
| CorpusLoader.LoadCsv | data_reader.py:21-46 | no CSV file loads nothing; a loaded corpus is a well-formed table with only common columns, lower-case texts and lower-case stripped platforms |
| CorpusLoader.NoCommonColumnReadsEmpty | data_reader.py:29-37 | a CSV file with none of the common columns is read as the table with no columns and no rows |
| CorpusLoader.CsvAround | data_reader.py:19 | only names ending in `.csv` are taken, in listing order |
| CorpusLoader.IsCsvName | data_reader.py:19 | a name is taken iff it is some stem followed by `.csv`, case-sensitively |
| CorpusLoader.NonCsvIgnored | data_reader.py:19 | an entry whose name does not end in `.csv` changes nothing |
| CorpusLoader.SkippedFileIgnored | data_reader.py:38-39 | a CSV file whose read raises `ValueError` changes nothing, and later files are still read |
| CorpusLoader.SkippedReadIgnored | data_reader.py:38-39 | reading past a file whose read raises `ValueError` reads the rest as if it were absent |
| CorpusLoader.SameReadsSameLoad | data_reader.py:41-46 | the load depends on the CSV files only through the tables read from them |
| CorpusLoader.AbortingFileSpoilsLoad | data_reader.py:47-49 | a CSV file whose read raises anything else makes the whole load `None`, wherever it is listed |
| CorpusLoader.AllSkippedLoadsNothing | data_reader.py:41-42 | when every CSV read raises `ValueError` (or there is no CSV file) the load is `None` |
| CorpusLoader.SingleFileLoad | data_reader.py:17-46 | a listing with one readable CSV file loads exactly that file's normalised table |
| Enrichment.Process | analyze_data.py:20-39 | a kept record gets both annotation keys, and every other key is present iff it was and holds the same value |
| Enrichment.Truthy | analyze_data.py:22 | the falsy fields are exactly `None`, `0`, `""` and an empty emotion list; NaN is truthy |
| Enrichment.TextOf | analyze_data.py:21 | `record.get("text", "")`: the stored text when the key is present, a falsy value otherwise |
| Enrichment.AnalyzeSpec | analyze_data.py:18-41 | never more records out than in, and every record out carries both annotation keys |
| Enrichment.Kept | analyze_data.py:18-39 | the output is never longer than the input |
| Enrichment.RecordDict.constructor | app.py:102 | a new dictionary holds the given fields |
| Enrichment.AnalyzeRecord | analyze_data.py:20-39 | one record is kept iff `Process` keeps it, and its fields change only by that annotation |
| Enrichment.AnalyzeAt | analyze_data.py:19-39 | one turn of the loop annotates the record at its position and keeps it iff `Process` does, leaving later positions untouched unless the same object came earlier |
| Enrichment.AnalyzeData | analyze_data.py:8-41 | the output is the input objects whose processing did not raise, in input order; each input is annotated in place; a dropped one is untouched; the contents are `AnalyzeSpec` |
| Enrichment.AnnotatedStable | analyze_data.py:20-37 | analysing an annotated record again keeps or drops it as before and changes nothing |
| Enrichment.KeptSnoc | analyze_data.py:37 | one more record adds its item iff it is kept |
| Enrichment.DroppedUntouched | analyze_data.py:38-39 | a record that is not returned was left as it was |
| Enrichment.KeptComplete | analyze_data.py:37 | every record whose processing succeeds is in the output |
| Enrichment.KeptSound | analyze_data.py:37-39 | every output record comes from a position whose processing succeeded |
| Enrichment.KeptIsSubseq | analyze_data.py:18-37 | the output is a subsequence of the input |
| Enrichment.KeptAppend | analyze_data.py:19-39 | processing continues after a failure: the survivors of two parts are the survivors of each, in order |
| Enrichment.KeptFields | analyze_data.py:18-41 | the contents of the returned dictionaries are `AnalyzeSpec` of the input contents |
| Enrichment.KeptContents | analyze_data.py:18-41 | the contents of the kept dictionaries are the kept contents |
| Enrichment.KeepRule | analyze_data.py:21-35 | without truthy text a record is kept with both annotations `None` whatever the analyzers would do; with text it is kept iff both analyzers return, with their results |
| Enrichment.AnalyzeSpecAnnotates | analyze_data.py:30-37 | every returned record has both annotations and otherwise the fields of an input record |
| SearchEndpoint.SplitParam | app.py:71-73 | an absent or empty parameter is `[]`; otherwise the comma-free pieces, which joined with commas give the parameter back |
| SearchEndpoint.Arg | app.py:70-73 | `request.args.get` finds a value iff the parameter is present, and then it is that value |
| SearchEndpoint.SplitParamJoin | app.py:71-73 | a comma-joined list of comma-free values splits back into those values |
| SearchEndpoint.QueryTerms | app.py:78 | every search term is alphanumeric and not a stopword |
| SearchEndpoint.QueryTermsExact | app.py:77-78 | the terms are the qualifying tokens in order, each as often as tokenized, and nothing else |
| SearchEndpoint.Echo | app.py:112 | no terms echo as the empty string; the echo starts with the first term and, when no term holds a space, has one space fewer than there are terms |
| SearchEndpoint.LoadsOpenData | app.py:84 | the corpus is never loaded for an empty `fuente` |
| SearchEndpoint.OpenDataGate | app.py:71-84 | for a `fuente` parameter listing comma-free sources, the corpus is loaded iff one source is exactly `openData` |
| SearchEndpoint.EchoRoundTrip | app.py:112 | the echoed query splits at spaces into the terms again; no terms echo as the empty string |
| SearchEndpoint.ToRecord | app.py:102 | a row dictionary keeps its keys and wraps each value |
| SearchEndpoint.ToRecords | app.py:102 | one record per row; its keys are the labels, and each label holds the row's cell under the label's last column |
| SearchEndpoint.ResultSpec | app.py:84-107 | no corpus gives no results; the results are no more than the filtered rows, and each carries both annotation keys |
| SearchEndpoint.NewRecordDicts | app.py:102 | `to_dict` makes new, distinct dictionaries with the given contents |
| SearchEndpoint.BuscarResultados | app.py:68-125 | there is an answer iff `fuente` contains `openData`; it echoes the terms and the split parameters, and its one result list holds `AnalyzeSpec` of the filtered corpus |

## Left out

- Flask routing, CORS, `jsonify`, the static menu of `get_filtro` and `app.run`: web plumbing. The request's query string is a map from names to strings; repeated parameters are not modelled.
- The NLTK resource downloads, `word_tokenize` and the Spanish stopword list: foreign code. The tokenizer and the stopword set are parameters of `SearchEndpoint.BuscarResultados`.
- The VADER and transformer models: machine learning with floating-point scores. They are the parameter `Enrichment.Analyzers`, a pair of functions that return a value or raise. A NaN text is passed to them like any truthy text.
- The file system and pandas' CSV parser: I/O. A directory listing is a sequence of names with what reading each gives (`CorpusLoader.DirEntry`); a listing that cannot be produced is `None`. The delimiter and the folder path only reach the parser, so they are not modelled.
- All `print` logging.
- Unicode: `str.lower`, `str.strip`, `str.isalnum`, `int()` and `case=False` are modelled on ASCII; non-ASCII letters, digits, spaces and case folding are not. `int()` is modelled without underscores between digits.
- Tables.ToNumeric: `to_numeric` is modelled as `int()` on strings. Every other numeric spelling becomes NaN, which pandas would turn into a float: a decimal such as `2010.5`, an exponent, and also a whole-number float such as `2010.0`. The year pass keeps a row whose year is `2010.0` when a range covers 2010; the model drops it.
- Tables.Concat: pandas may order the union of labels differently; here labels appear in order of first appearance. Column dtypes are not modelled.
- FilterEngine.FilterSpec: a repeated `platform` or `text` label after lower-casing is treated as a failure; pandas' behaviour there depends on the data. When pandas answers a failure or an empty pass with a table that has no labels, the model keeps the labels; the records handed on are the same empty list.
- FilterEngine.FilterSpec: a `text` column that pandas reads as numbers makes `.str` raise, which pandas answers with an empty table; the model keeps the labels and, as no such row matches, no rows.
- Enrichment.AnalyzeData: a record dictionary is a map from keys to fields; Python's key order is not modelled.
- SearchEndpoint.BuscarResultados: the folder name `openData` and the common columns are fixed; the directory listing is passed in. The HTTP status of the `NameError` answer is not modelled.

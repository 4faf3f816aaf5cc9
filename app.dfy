/** `buscar_resultados` (app.py): the search endpoint. It splits the
    request's list parameters, reduces the query to search terms, loads the
    open-data corpus when asked to, filters and analyses it, and answers
    with the terms echoed back and the analysed records. */
module SearchEndpoint {
  import opened Basics
  import opened Strings
  import opened Tables
  import opened FilterEngine
  import opened CorpusLoader
  import opened Enrichment

  // ------------------------------------------------------- parameters

  /** `request.args.get(key)`: the value of a query-string parameter, if
      present. */
  function Arg(args: map<string, string>, key: string): (r: Option<string>)
    ensures r.Some? <==> key in args
    ensures r.Some? ==> r.value == args[key]
  {
    if key in args then Some(args[key]) else None
  }

  /** Lines 71-73: an absent or empty parameter is the empty list; any
      other value is split at every comma, with no trimming and with empty
      pieces kept. */
  function SplitParam(arg: Option<string>): (r: seq<string>)
    ensures r == [] <==> arg.None? || arg.value == ""
    ensures r != [] ==> Join(r, ',') == arg.value
    ensures forall k :: 0 <= k < |r| ==> SepFree(r[k], {','})
  {
    if arg.None? || arg.value == "" then []
    else
      JoinSplit(arg.value, ',');
      Split(arg.value, {','})
  }

  /** Splitting a comma-joined list of comma-free values gives the values
      back. */
  lemma {:induction false} SplitParamJoin(values: seq<string>)
    requires values != [] && Join(values, ',') != ""
    requires forall k :: 0 <= k < |values| ==> SepFree(values[k], {','})
    ensures SplitParam(Some(Join(values, ','))) == values
  {
    SplitJoin(values, ',');
  }

  // ------------------------------------------------------- query terms

  /** Line 78's condition: an alphanumeric token that is not a stopword. */
  predicate IsSearchTerm(word: string, stopWords: set<string>)
  {
    IsAlnum(word) && word !in stopWords
  }

  function TermTest(stopWords: set<string>): string -> bool
  {
    w => IsSearchTerm(w, stopWords)
  }

  /** Line 78: the tokens kept as search terms, in order, duplicates
      included. */
  function QueryTerms(tokens: seq<string>, stopWords: set<string>): (r: seq<string>)
    ensures forall w :: w in r ==> IsAlnum(w) && w !in stopWords
  {
    Select(tokens, TermTest(stopWords))
  }

  /** The search terms are the qualifying tokens in token order, each as
      often as the tokenizer produced it; nothing else. */
  lemma {:induction false} QueryTermsExact(tokens: seq<string>, stopWords: set<string>)
    ensures IsSubseq(QueryTerms(tokens, stopWords), tokens)
    ensures forall w ::
      multiset(QueryTerms(tokens, stopWords))[w] == if IsSearchTerm(w, stopWords) then multiset(tokens)[w] else 0
  {
    SelectIsSubseq(tokens, TermTest(stopWords));
    SelectMultiplicity(tokens, TermTest(stopWords));
  }

  /** The query echoed back: the search terms joined by single spaces. It
      begins with the first term and, when no term holds a space, has one
      space fewer than there are terms; `EchoRoundTrip` splits it back. */
  function Echo(terms: seq<string>): (r: string)
    ensures terms == [] ==> r == ""
    ensures terms != [] ==> terms[0] <= r
    ensures terms != [] && (forall k :: 0 <= k < |terms| ==> SepFree(terms[k], {' '})) ==>
      Occurrences(r, {' '}) == |terms| - 1
  {
    Join(terms, ' ')
  }

  /** The echoed query splits at its spaces into the search terms again;
      no terms echo as the empty string. */
  lemma {:induction false} EchoRoundTrip(tokens: seq<string>, stopWords: set<string>)
    ensures var terms := QueryTerms(tokens, stopWords);
      && (terms == [] ==> Echo(terms) == "")
      && (terms != [] ==> Split(Echo(terms), {' '}) == terms)
  {
    var terms := QueryTerms(tokens, stopWords);
    if terms != [] {
      forall k | 0 <= k < |terms| ensures SepFree(terms[k], {' '}) {
        assert terms[k] in terms;
        AlnumHasNoSpace(terms[k]);
      }
      SplitJoin(terms, ' ');
    }
  }

  /** Line 84: the corpus is read only when one of the `fuente` values is
      exactly `openData`. */
  predicate LoadsOpenData(fuente: seq<string>)
    ensures LoadsOpenData(fuente) ==> fuente != []
  {
    "openData" in fuente
  }

  /** A `fuente` parameter listing comma-free sources asks for the corpus
      exactly when one of them is `openData`; a source written with extra
      spaces or another case does not. */
  lemma {:induction false} OpenDataGate(values: seq<string>)
    requires values != [] && Join(values, ',') != ""
    requires forall k :: 0 <= k < |values| ==> SepFree(values[k], {','})
    ensures LoadsOpenData(SplitParam(Some(Join(values, ',')))) <==> "openData" in values
  {
    SplitParamJoin(values);
  }

  // ---------------------------------------------------------- handler

  /** The columns every file is cut down to before concatenation. */
  const CommonColumns: seq<string> := ["Year", "Text", "Platform"]

  /** One row dictionary of `to_dict(orient='records')` as record fields. */
  function ToRecord(m: map<string, Cell>): (r: Record)
    ensures r.Keys == m.Keys
    ensures forall k :: k in m ==> r[k] == CellValue(m[k])
  {
    map k | k in m :: CellValue(m[k])
  }

  /** `to_dict(orient='records')` (line 102): one record per row, keyed by
      the column labels; a label that repeats takes the cell of its last
      column. */
  function ToRecords(t: Table): (r: seq<Record>)
    requires WellFormed(t)
    ensures |r| == |t.rows|
    ensures forall i :: 0 <= i < |r| ==> forall c :: c in r[i] <==> c in t.columns
    ensures forall i, j :: 0 <= i < |r| && 0 <= j < |t.columns| && t.columns[j] !in t.columns[j + 1..] ==>
      r[i][t.columns[j]] == CellValue(t.rows[i][j])
  {
    var ms := Records(t);
    seq(|ms|, i requires 0 <= i < |ms| => ToRecord(ms[i]))
  }

  /** The JSON answer of line 111-122. */
  datatype Response = Response(query: string, fuente: seq<string>, socialNetwork: seq<string>,
                               time: seq<string>, results: seq<seq<RecordDict>>)

  /** The outcome of a request: an answer, or the `NameError` raised at
      line 99 when `data` was never bound. */
  datatype Outcome = Answer(response: Response) | Unbound

  /** What the records in the answer hold, for a listing of the `openData`
      directory. */
  function ResultSpec(listing: Option<seq<DirEntry>>, time: seq<string>, socialNetwork: seq<string>,
                      terms: seq<string>, an: Analyzers): (r: seq<Record>)
    requires listing.Some? ==> ReadableListing(listing.value)
    ensures listing.None? ==> r == []
    ensures |r| <= |FilterSpec(LoadSpec(listing, CommonColumns), time, socialNetwork, terms).rows|
    ensures forall x :: x in r ==> SentimentKey in x && MentalHealthKey in x
  {
    var filtered := FilterSpec(LoadSpec(listing, CommonColumns), time, socialNetwork, terms);
    AnalyzeSpec(ToRecords(filtered), an)
  }

  /** `to_dict(orient='records')`: new dictionaries, one per record. */
  method NewRecordDicts(records: seq<Record>) returns (dicts: seq<RecordDict>)
    ensures FieldsOf(dicts) == records
    ensures forall d :: d in dicts ==> fresh(d)
    ensures forall i, j :: 0 <= i < j < |dicts| ==> dicts[i] != dicts[j]
  {
    dicts := [];
    var i := 0;
    while i < |records|
      invariant 0 <= i <= |records|
      invariant |dicts| == i && FieldsOf(dicts) == records[..i]
      invariant forall d :: d in dicts ==> fresh(d)
      invariant forall a, b :: 0 <= a < b < |dicts| ==> dicts[a] != dicts[b]
    {
      var d := new RecordDict(records[i]);
      dicts := dicts + [d];
      assert records[..i + 1] == records[..i] + [records[i]];
      i := i + 1;
    }
    assert records[..i] == records;
  }

  /** `buscar_resultados`. The tokenizer, the stopword set, the listing of
      the `openData` directory and the analyzers are parameters. */
  method BuscarResultados(args: map<string, string>, tokenize: string -> seq<string>, stopWords: set<string>,
                          listing: Option<seq<DirEntry>>, an: Analyzers)
    returns (outcome: Outcome)
    requires listing.Some? ==> ReadableListing(listing.value)
    ensures var fuente := SplitParam(Arg(args, "fuente"));
      outcome.Answer? <==> LoadsOpenData(fuente)
    ensures outcome.Answer? ==>
      var query := if "query" in args then args["query"] else "";
      var terms := QueryTerms(tokenize(Lower(query)), stopWords);
      var time := SplitParam(Arg(args, "time"));
      var socialNetwork := SplitParam(Arg(args, "socialNetwork"));
      var r := outcome.response;
      && r.query == Echo(terms)
      && r.fuente == SplitParam(Arg(args, "fuente"))
      && r.socialNetwork == socialNetwork
      && r.time == time
      && |r.results| == 1
      && FieldsOf(r.results[0]) == ResultSpec(listing, time, socialNetwork, terms, an)
  {
    var query := if "query" in args then args["query"] else "";
    var fuente := SplitParam(Arg(args, "fuente"));
    var socialNetwork := SplitParam(Arg(args, "socialNetwork"));
    var time := SplitParam(Arg(args, "time"));
    var filteredQuery := QueryTerms(tokenize(Lower(query)), stopWords);
    if !LoadsOpenData(fuente) {
      return Unbound;
    }
    var data := ReadCsvFiles(listing, CommonColumns);
    var df: Frame? := null;
    if data.Some? {
      df := new Frame(data.value);
    }
    var filteredData := FilterData(df, time, socialNetwork, filteredQuery);
    var dataFiltered := NewRecordDicts(ToRecords(filteredData.Value()));
    var analyzedData := AnalyzeData(dataFiltered, an);
    outcome := Answer(Response(Echo(filteredQuery), fuente, socialNetwork, time, [analyzedData]));
  }
}

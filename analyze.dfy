/** `analyze_data` (analyze_data.py): annotating each record with a
    sentiment and an emotion analysis. The two analyzers are opaque and may
    raise; a record they fail on is dropped, a record without text is kept
    with empty annotations. */
module Enrichment {
  import opened Basics
  import opened Tables

  /** `sia.polarity_scores(text)`. */
  datatype PolarityScores = PolarityScores(neg: real, neu: real, pos: real, compound: real)

  /** One entry of `emotion_model(text)`. */
  datatype EmotionScore = EmotionScore(emotionLabel: string, score: real)

  /** A value stored in a record dictionary. */
  datatype Field =
    | CellValue(cell: Cell)
    | NoneValue
    | Sentiment(scores: PolarityScores)
    | MentalHealth(emotions: seq<EmotionScore>)

  /** The result of calling an analyzer: a value, or an exception. */
  datatype Call<T> = Returned(value: T) | Raised

  type Record = map<string, Field>

  /** The analyzers, as functions of the text they are given. */
  datatype Analyzers = Analyzers(sia: Field -> Call<PolarityScores>, emotion: Field -> Call<seq<EmotionScore>>)

  const SentimentKey := "sentiment"
  const MentalHealthKey := "mental_health"
  const TextKey := "text"

  /** Python truthiness of a field: NaN is a non-zero float and so true;
      `None`, `0` and `""` are false; the polarity dictionary always has
      four keys. */
  predicate Truthy(f: Field)
    ensures !Truthy(f) <==>
      f == NoneValue || f == CellValue(Num(0)) || f == CellValue(Str("")) || f == MentalHealth([])
  {
    match f
    case CellValue(c) => (match c case NaN => true case Num(n) => n != 0 case Str(s) => s != "")
    case NoneValue => false
    case Sentiment(_) => true
    case MentalHealth(es) => es != []
  }

  /** `record.get("text", "")`. */
  function TextOf(record: Record): (r: Field)
    ensures TextKey in record ==> r == record[TextKey]
    ensures TextKey !in record ==> !Truthy(r)
  {
    if TextKey in record then record[TextKey] else CellValue(Str(""))
  }

  /** The `try` body of lines 21-37 for one record: the annotated record,
      or None when an analyzer raised. */
  function Process(record: Record, an: Analyzers): (r: Option<Record>)
    ensures r.Some? ==> SentimentKey in r.value && MentalHealthKey in r.value
    ensures r.Some? ==> forall k :: k != SentimentKey && k != MentalHealthKey ==>
      (k in r.value <==> k in record) && (k in record ==> r.value[k] == record[k])
  {
    var text := TextOf(record);
    if !Truthy(text) then
      Some(record[SentimentKey := NoneValue][MentalHealthKey := NoneValue])
    else
      match (an.sia(text), an.emotion(text))
      case (Returned(s), Returned(e)) =>
        Some(record[SentimentKey := Sentiment(s)][MentalHealthKey := MentalHealth(e)])
      case _ => None
  }

  /** The record as the loop leaves it: annotated when kept, untouched when
      dropped, since both assignments follow both calls. */
  function Annotated(record: Record, an: Analyzers): Record
  {
    match Process(record, an)
    case Some(m) => m
    case None => record
  }

  /** The elements of `items` at the positions whose record is kept, in
      order. */
  function Kept<T>(items: seq<T>, records: seq<Record>, an: Analyzers): (r: seq<T>)
    requires |items| == |records|
    ensures |r| <= |items|
    decreases |items|
  {
    if items == [] then []
    else
      var n := |items| - 1;
      Kept(items[..n], records[..n], an) + (if Process(records[n], an).Some? then [items[n]] else [])
  }

  /** What `analyze_data` returns, as values: the annotated records that
      were kept. */
  function AnalyzeSpec(records: seq<Record>, an: Analyzers): (r: seq<Record>)
    ensures |r| <= |records|
    ensures forall x :: x in r ==> SentimentKey in x && MentalHealthKey in x
  {
    KeptAnnotated(records, an);
    Kept(seq(|records|, i requires 0 <= i < |records| => Annotated(records[i], an)), records, an)
  }

  // ------------------------------------------------------------ state

  /** A record dictionary, updated in place by `analyze_data`. */
  class RecordDict {
    var fields: Record

    constructor (fields0: Record)
      ensures fields == fields0
    {
      fields := fields0;
    }
  }

  /** The contents of a list of record dictionaries. */
  function FieldsOf(rs: seq<RecordDict>): (r: seq<Record>)
    reads set x | x in rs
    ensures |r| == |rs| && forall i :: 0 <= i < |rs| ==> r[i] == rs[i].fields
    decreases |rs|
  {
    if rs == [] then [] else FieldsOf(rs[..|rs| - 1]) + [rs[|rs| - 1].fields]
  }

  /** The `try` body of lines 21-37 for one record: it reports whether the
      record is kept; the record's fields change only when both analyzer
      calls have returned, or when there is no text. */
  method AnalyzeRecord(record: RecordDict, an: Analyzers) returns (kept: bool)
    modifies record
    ensures kept == Process(old(record.fields), an).Some?
    ensures record.fields == Annotated(old(record.fields), an)
  {
    var text := TextOf(record.fields);
    kept := true;
    if Truthy(text) {
      var sentiment := an.sia(text);
      var emotion := an.emotion(text);
      if sentiment.Returned? && emotion.Returned? {
        record.fields := record.fields[SentimentKey := Sentiment(sentiment.value)];
        record.fields := record.fields[MentalHealthKey := MentalHealth(emotion.value)];
      } else {
        kept := false;
      }
    } else {
      record.fields := record.fields[SentimentKey := NoneValue];
      record.fields := record.fields[MentalHealthKey := NoneValue];
    }
  }

  /** One turn of the loop of lines 18-39 over `items`, whose fields were
      `before` when the loop began: afterwards every record up to `i` is
      annotated, and each later one is untouched unless the same object was
      listed earlier. */
  method AnalyzeAt(items: seq<RecordDict>, ghost before: seq<Record>, an: Analyzers, i: nat) returns (kept: bool)
    requires |items| == |before| && i < |items|
    requires forall j, k :: 0 <= j < |items| && 0 <= k < |items| && items[j] == items[k] ==> before[j] == before[k]
    requires forall j :: 0 <= j < |items| ==>
      items[j].fields == Annotated(before[j], an) || (i <= j && items[j].fields == before[j])
    modifies items[i]
    ensures kept == Process(before[i], an).Some?
    ensures forall j :: 0 <= j < |items| ==>
      items[j].fields == Annotated(before[j], an) || (i + 1 <= j && items[j].fields == before[j])
  {
    AnnotatedStable(before[i], an);
    kept := AnalyzeRecord(items[i], an);
    forall j | 0 <= j < |items|
      ensures items[j].fields == Annotated(before[j], an) || (i + 1 <= j && items[j].fields == before[j])
    {
      if items[j] == items[i] {
        assert before[j] == before[i];
      }
    }
  }

  /** `analyze_data`: the loop of lines 18-39. Kept records are the input
      objects themselves, annotated in place; a dropped record is not
      touched. The same object listed twice is processed twice with the
      same outcome. */
  method AnalyzeData(dataFiltered: seq<RecordDict>, an: Analyzers) returns (analyzedData: seq<RecordDict>)
    modifies set x | x in dataFiltered
    ensures analyzedData == Kept(dataFiltered, old(FieldsOf(dataFiltered)), an)
    ensures forall i :: 0 <= i < |dataFiltered| ==>
      dataFiltered[i].fields == Annotated(old(dataFiltered[i].fields), an)
    ensures forall i :: 0 <= i < |dataFiltered| && dataFiltered[i] !in analyzedData ==>
      dataFiltered[i].fields == old(dataFiltered[i].fields)
    ensures FieldsOf(analyzedData) == AnalyzeSpec(old(FieldsOf(dataFiltered)), an)
  {
    ghost var before := FieldsOf(dataFiltered);
    // The same object listed twice starts with the same fields.
    assert forall j, k :: 0 <= j < |dataFiltered| && 0 <= k < |dataFiltered| && dataFiltered[j] == dataFiltered[k] ==>
      before[j] == before[k];
    analyzedData := [];
    var i := 0;
    while i < |dataFiltered|
      invariant 0 <= i <= |dataFiltered|
      invariant analyzedData == Kept(dataFiltered[..i], before[..i], an)
      invariant forall j :: 0 <= j < |dataFiltered| ==>
        dataFiltered[j].fields == Annotated(before[j], an) || (i <= j && dataFiltered[j].fields == before[j])
    {
      var record := dataFiltered[i];
      KeptSnoc(dataFiltered, before, an, i);
      var kept := AnalyzeAt(dataFiltered, before, an, i);
      if kept {
        analyzedData := analyzedData + [record];
      }
      i := i + 1;
    }
    assert dataFiltered[..i] == dataFiltered;
    assert before[..i] == before;
    DroppedUntouched(dataFiltered, before, an);
    KeptFields(analyzedData, dataFiltered, before, an);
  }

  // ------------------------------------------------------------ lemmas

  /** Analysing an annotated record again keeps or drops it as before and
      changes nothing more. */
  lemma {:induction false} AnnotatedStable(record: Record, an: Analyzers)
    ensures Process(Annotated(record, an), an).Some? == Process(record, an).Some?
    ensures Annotated(Annotated(record, an), an) == Annotated(record, an)
  {
    if Process(record, an).Some? {
      assert TextOf(Annotated(record, an)) == TextOf(record);
    }
  }

  /** Every record kept from the annotated records carries both
      annotations. */
  lemma {:induction false} KeptAnnotated(records: seq<Record>, an: Analyzers)
    ensures var annotated := seq(|records|, i requires 0 <= i < |records| => Annotated(records[i], an));
      forall x :: x in Kept(annotated, records, an) ==> SentimentKey in x && MentalHealthKey in x
  {
    var annotated := seq(|records|, i requires 0 <= i < |records| => Annotated(records[i], an));
    forall x | x in Kept(annotated, records, an) ensures SentimentKey in x && MentalHealthKey in x {
      KeptSound(annotated, records, an, x);
    }
  }

  /** Keeping from one more position. */
  lemma {:induction false} KeptSnoc<T>(items: seq<T>, records: seq<Record>, an: Analyzers, i: nat)
    requires |items| == |records| && i < |items|
    ensures Kept(items[..i + 1], records[..i + 1], an) ==
      Kept(items[..i], records[..i], an) + (if Process(records[i], an).Some? then [items[i]] else [])
  {
    assert items[..i + 1][..i] == items[..i] && records[..i + 1][..i] == records[..i];
  }

  /** Every position whose record is kept contributes its item. */
  lemma {:induction false} KeptComplete<T>(items: seq<T>, records: seq<Record>, an: Analyzers, i: nat)
    requires |items| == |records| && i < |items|
    requires Process(records[i], an).Some?
    ensures items[i] in Kept(items, records, an)
    decreases |items|
  {
    var n := |items| - 1;
    if i < n {
      KeptComplete(items[..n], records[..n], an, i);
      assert items[..n][i] == items[i] && records[..n][i] == records[i];
    }
  }

  /** Every item kept comes from a position whose record is kept. */
  lemma {:induction false} KeptSound<T>(items: seq<T>, records: seq<Record>, an: Analyzers, x: T)
    requires |items| == |records|
    requires x in Kept(items, records, an)
    ensures exists i :: 0 <= i < |items| && items[i] == x && Process(records[i], an).Some?
    decreases |items|
  {
    var n := |items| - 1;
    if x in Kept(items[..n], records[..n], an) {
      KeptSound(items[..n], records[..n], an, x);
      var i :| 0 <= i < n && items[..n][i] == x && Process(records[..n][i], an).Some?;
      assert items[i] == x && records[i] == records[..n][i];
    } else {
      assert items[n] == x && Process(records[n], an).Some?;
    }
  }

  /** The kept items keep their input order. */
  lemma {:induction false} KeptIsSubseq<T>(items: seq<T>, records: seq<Record>, an: Analyzers)
    requires |items| == |records|
    ensures IsSubseq(Kept(items, records, an), items)
    decreases |items|
  {
    if items == [] {
    } else {
      var n := |items| - 1;
      KeptIsSubseq(items[..n], records[..n], an);
      assert items == items[..n] + [items[n]];
      var init := Kept(items[..n], records[..n], an);
      if Process(records[n], an).Some? {
        IsSubseqSnoc(init, items[..n], items[n]);
      } else {
        IsSubseqExtend(init, items[..n], items[n]);
        assert init + [] == init;
      }
    }
  }

  /** Processing a list in two parts keeps the parts' survivors in order. */
  lemma {:induction false} KeptAppend<T>(a: seq<T>, ra: seq<Record>, b: seq<T>, rb: seq<Record>, an: Analyzers)
    requires |a| == |ra| && |b| == |rb|
    ensures Kept(a + b, ra + rb, an) == Kept(a, ra, an) + Kept(b, rb, an)
    decreases |b|
  {
    if b == [] {
      assert a + b == a && ra + rb == ra;
    } else {
      var n := |b| - 1;
      KeptAppend(a, ra, b[..n], rb[..n], an);
      assert (a + b)[..|a + b| - 1] == a + b[..n];
      assert (ra + rb)[..|ra + rb| - 1] == ra + rb[..n];
      assert (a + b)[|a + b| - 1] == b[n] && (ra + rb)[|ra + rb| - 1] == rb[n];
    }
  }

  /** A dictionary that is not kept anywhere was left as it was. */
  lemma {:induction false} DroppedUntouched(items: seq<RecordDict>, records: seq<Record>, an: Analyzers)
    requires |items| == |records|
    requires forall i :: 0 <= i < |items| ==> items[i].fields == Annotated(records[i], an)
    ensures forall i :: 0 <= i < |items| && items[i] !in Kept(items, records, an) ==>
      items[i].fields == records[i]
  {
    forall i | 0 <= i < |items| && items[i] !in Kept(items, records, an)
      ensures items[i].fields == records[i]
    {
      if Process(records[i], an).Some? {
        KeptComplete(items, records, an, i);
      }
    }
  }

  /** The contents of the kept records are the kept contents. */
  lemma {:induction false} KeptFields(kept: seq<RecordDict>, items: seq<RecordDict>, records: seq<Record>, an: Analyzers)
    requires |items| == |records| && kept == Kept(items, records, an)
    requires forall i :: 0 <= i < |items| ==> items[i].fields == Annotated(records[i], an)
    ensures FieldsOf(kept) == AnalyzeSpec(records, an)
  {
    var annotated := seq(|records|, i requires 0 <= i < |records| => Annotated(records[i], an));
    KeptContents(items, annotated, records, an);
  }

  /** Reading the fields of the kept dictionaries is keeping their fields. */
  lemma {:induction false} KeptContents(items: seq<RecordDict>, annotated: seq<Record>, records: seq<Record>, an: Analyzers)
    requires |items| == |records| == |annotated|
    requires forall i :: 0 <= i < |items| ==> items[i].fields == annotated[i]
    ensures FieldsOf(Kept(items, records, an)) == Kept(annotated, records, an)
    decreases |items|
  {
    if items != [] {
      var n := |items| - 1;
      KeptContents(items[..n], annotated[..n], records[..n], an);
      var k := Kept(items[..n], records[..n], an);
      if Process(records[n], an).Some? {
        assert (k + [items[n]])[..|k|] == k;
      } else {
        assert k + [] == k;
        assert Kept(annotated[..n], records[..n], an) + [] == Kept(annotated[..n], records[..n], an);
      }
    }
  }

  /** The keep/null/drop rule: a record without (truthy) text is kept with
      both annotations `None` whatever the analyzers would do, so they are
      not consulted; a record with text is kept exactly when both analyzers
      return, with their results as annotations. */
  lemma {:induction false} KeepRule(record: Record, an: Analyzers, other: Analyzers)
    ensures var text := TextOf(record);
      && (!Truthy(text) ==>
            && Process(record, an) == Process(record, other)
            && Process(record, an).Some?
            && Process(record, an).value[SentimentKey] == NoneValue
            && Process(record, an).value[MentalHealthKey] == NoneValue)
      && (Truthy(text) ==>
            && (Process(record, an).Some? <==> an.sia(text).Returned? && an.emotion(text).Returned?)
            && (Process(record, an).Some? ==>
                  && Process(record, an).value[SentimentKey] == Sentiment(an.sia(text).value)
                  && Process(record, an).value[MentalHealthKey] == MentalHealth(an.emotion(text).value)))
  {
  }

  /** Every record `analyze_data` returns carries both annotations and the
      other fields of the record it came from. */
  lemma {:induction false} AnalyzeSpecAnnotates(records: seq<Record>, an: Analyzers, r: Record)
    requires r in AnalyzeSpec(records, an)
    ensures SentimentKey in r && MentalHealthKey in r
    ensures exists i :: 0 <= i < |records| && forall k :: k != SentimentKey && k != MentalHealthKey ==>
      (k in r <==> k in records[i]) && (k in r ==> r[k] == records[i][k])
  {
    var annotated := seq(|records|, i requires 0 <= i < |records| => Annotated(records[i], an));
    KeptSound(annotated, records, an, r);
    var i :| 0 <= i < |records| && annotated[i] == r && Process(records[i], an).Some?;
  }
}

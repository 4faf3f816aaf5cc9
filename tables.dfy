/** The part of a pandas DataFrame the service uses: labelled columns (labels
    may repeat), rows of cells, a cell being a number, a string or NaN. The
    operations are the vectorised ones the service calls: selecting columns
    when reading (`usecols`), replacing one column by a function of it,
    concatenating tables (`pd.concat(..., ignore_index=True)`), and
    converting rows to dictionaries (`to_dict(orient='records')`). */
module Tables {
  import opened Basics
  import opened Strings

  /** One cell: an integer, a string, or a missing value (NaN). */
  datatype Cell = NaN | Num(n: int) | Str(s: string)

  type Row = seq<Cell>

  datatype Table = Table(columns: seq<string>, rows: seq<Row>)

  /** Every row has one cell per column. */
  predicate WellFormed(t: Table)
  {
    forall row :: row in t.rows ==> |row| == |t.columns|
  }

  predicate Distinct(cols: seq<string>)
  {
    forall i, j :: 0 <= i < j < |cols| ==> cols[i] != cols[j]
  }

  /** `pd.DataFrame()`: no columns, no rows. */
  const EmptyTable := Table([], [])

  /** How many columns carry the label `name`. */
  function Count(cols: seq<string>, name: string): (n: nat)
    ensures n == 0 <==> name !in cols
    ensures Distinct(cols) ==> n <= 1
    decreases |cols|
  {
    if cols == [] then 0
    else
      assert Distinct(cols) ==> Distinct(cols[1..]) && cols[0] !in cols[1..];
      (if cols[0] == name then 1 else 0) + Count(cols[1..], name)
  }

  /** The position of the first column labelled `name`. */
  function IndexOf(cols: seq<string>, name: string): (k: nat)
    requires name in cols
    ensures k < |cols| && cols[k] == name && name !in cols[..k]
    decreases |cols|
  {
    if cols[0] == name then 0
    else
      var k := 1 + IndexOf(cols[1..], name);
      assert cols[..k] == [cols[0]] + cols[1..][..k - 1];
      k
  }

  /** With distinct labels, a label's position is where it stands. */
  lemma {:induction false} IndexOfDistinct(cols: seq<string>, k: nat)
    requires Distinct(cols) && k < |cols|
    ensures IndexOf(cols, cols[k]) == k
    decreases |cols|
  {
    if k > 0 {
      assert cols[0] != cols[k];
      assert cols[1..][k - 1] == cols[k];
      IndexOfDistinct(cols[1..], k - 1);
    }
  }

  // ------------------------------------------------------- column update

  /** The table with column `k` replaced by `f` of its cells, as
      `df[c] = f(df[c])` does for a column that occurs once. */
  function MapColumn(t: Table, k: nat, f: Cell -> Cell): (r: Table)
    requires WellFormed(t) && k < |t.columns|
    ensures r.columns == t.columns && WellFormed(r) && |r.rows| == |t.rows|
    ensures forall i, j :: 0 <= i < |t.rows| && 0 <= j < |t.columns| ==>
      r.rows[i][j] == if j == k then f(t.rows[i][j]) else t.rows[i][j]
  {
    Table(t.columns, seq(|t.rows|, i requires 0 <= i < |t.rows| => t.rows[i][k := f(t.rows[i][k])]))
  }

  /** `pd.to_numeric(..., errors='coerce')` on one cell: numbers stay, a
      string becomes the integer it spells or NaN. */
  function ToNumeric(c: Cell): (r: Cell)
    ensures r.NaN? || r.Num?
    ensures c.Num? ==> r == c
    ensures c.NaN? ==> r.NaN?
    ensures c.Str? ==> (r.Num? <==> ParseInt(c.s).Some?)
    ensures c.Str? && r.Num? ==> ParseInt(c.s) == Some(r.n)
  {
    match c
    case NaN => NaN
    case Num(_) => c
    case Str(s) => match ParseInt(s) case Some(n) => Num(n) case None => NaN
  }

  /** A year written in decimal is coerced to its value. */
  lemma {:induction false} ToNumericShowNat(n: nat)
    ensures ToNumeric(Str(ShowNat(n))) == Num(n)
  {
    ParseShowNat(n);
  }

  /** Replacing a column by a function that fixes each of its cells
      changes nothing. */
  lemma {:induction false} MapColumnFixed(t: Table, k: nat, f: Cell -> Cell)
    requires WellFormed(t) && k < |t.columns|
    requires forall i :: 0 <= i < |t.rows| ==> f(t.rows[i][k]) == t.rows[i][k]
    ensures MapColumn(t, k, f) == t
  {
    var r := MapColumn(t, k, f);
    forall i | 0 <= i < |t.rows| ensures r.rows[i] == t.rows[i] {
      assert |r.rows[i]| == |t.rows[i]|;
    }
  }

  /** A column rewritten by `f` holds `p` when every result of `f` does. */
  lemma {:induction false} MapColumnEstablishes(t: Table, name: string, f: Cell -> Cell, p: Cell -> bool)
    requires WellFormed(t) && name in t.columns
    requires forall c :: p(f(c))
    ensures ColumnHolds(MapColumn(t, IndexOf(t.columns, name), f), name, p)
  {
    var k := IndexOf(t.columns, name);
    var r := MapColumn(t, k, f);
    forall row | row in r.rows ensures p(row[k]) {
      var i :| 0 <= i < |r.rows| && r.rows[i] == row;
      assert row[k] == f(t.rows[i][k]);
    }
  }

  /** Rewriting another column keeps what holds under `name`. */
  lemma {:induction false} MapColumnPreserves(t: Table, k: nat, f: Cell -> Cell, name: string, p: Cell -> bool)
    requires WellFormed(t) && k < |t.columns| && t.columns[k] != name
    requires ColumnHolds(t, name, p)
    ensures ColumnHolds(MapColumn(t, k, f), name, p)
  {
    if name in t.columns {
      var j := IndexOf(t.columns, name);
      var r := MapColumn(t, k, f);
      forall row | row in r.rows ensures p(row[j]) {
        var i :| 0 <= i < |r.rows| && r.rows[i] == row;
        assert row[j] == t.rows[i][j];
        assert t.rows[i] in t.rows;
      }
    }
  }

  // ---------------------------------------------------------- projection

  /** Positions of the columns whose label is in `keep`, in table order. */
  function KeptIndices(cols: seq<string>, keep: seq<string>): (ix: seq<nat>)
    ensures forall j :: 0 <= j < |ix| ==> ix[j] < |cols| && cols[ix[j]] in keep
    ensures forall i :: 0 <= i < |cols| && cols[i] in keep ==> i in ix
    ensures forall j, j' :: 0 <= j < j' < |ix| ==> ix[j] < ix[j']
    decreases |cols|
  {
    if cols == [] then []
    else
      var rest := KeptIndices(cols[..|cols| - 1], keep);
      if cols[|cols| - 1] in keep then rest + [|cols| - 1] else rest
  }

  /** The elements of `s` at the positions `ix`, in that order. */
  function Pick<T>(s: seq<T>, ix: seq<nat>): (r: seq<T>)
    requires forall j :: 0 <= j < |ix| ==> ix[j] < |s|
    ensures |r| == |ix| && forall j :: 0 <= j < |ix| ==> r[j] == s[ix[j]]
  {
    seq(|ix|, j requires 0 <= j < |ix| => s[ix[j]])
  }

  /** `read_csv(..., usecols=lambda col: col in keep)`: only the columns
      whose label is in `keep`, in the order of the file. When no label is
      kept, pandas' reader produces a frame with no columns and no rows. */
  function Restrict(t: Table, keep: seq<string>): (r: Table)
    requires WellFormed(t)
    ensures WellFormed(r)
    ensures (exists c :: c in t.columns && c in keep) ==> |r.rows| == |t.rows|
    ensures (forall c :: c in t.columns ==> c !in keep) ==> r == Table([], [])
  {
    var ix := KeptIndices(t.columns, keep);
    if ix == [] then
      assert forall i :: 0 <= i < |t.columns| ==> t.columns[i] !in keep;
      Table([], [])
    else
      assert t.columns[ix[0]] in t.columns && t.columns[ix[0]] in keep;
      Table(Pick(t.columns, ix), seq(|t.rows|, i requires 0 <= i < |t.rows| => Pick(t.rows[i], ix)))
  }

  /** The labels at the kept positions are exactly the labels in `keep`,
      and distinct labels stay distinct. */
  lemma {:induction false} KeptLabels(cols: seq<string>, keep: seq<string>)
    ensures var kept := Pick(cols, KeptIndices(cols, keep));
      && (forall c :: c in kept <==> c in keep && c in cols)
      && (Distinct(cols) ==> Distinct(kept))
  {
    var ix := KeptIndices(cols, keep);
    var kept := Pick(cols, ix);
    forall c | c in kept ensures c in keep && c in cols {
      var j :| 0 <= j < |kept| && kept[j] == c;
      assert kept[j] == cols[ix[j]];
    }
    forall c | c in cols && c in keep ensures c in kept {
      var i :| 0 <= i < |cols| && cols[i] == c;
      var j :| 0 <= j < |ix| && ix[j] == i;
      assert kept[j] == c;
    }
    if Distinct(cols) {
      forall j, j' | 0 <= j < j' < |kept| ensures kept[j] != kept[j'] {
        assert ix[j] < ix[j'];
      }
    }
  }

  /** `usecols` keeps exactly the labels in `keep`, and keeps them
      distinct. */
  lemma {:induction false} RestrictLabels(t: Table, keep: seq<string>)
    requires WellFormed(t)
    ensures var r := Restrict(t, keep);
      && (forall c :: c in r.columns <==> c in keep && c in t.columns)
      && (Distinct(t.columns) ==> Distinct(r.columns))
  {
    assert Restrict(t, keep).columns == Pick(t.columns, KeptIndices(t.columns, keep));
    KeptLabels(t.columns, keep);
  }

  /** A cell of a restricted table is the cell of the same row under the
      same label in the original table. */
  lemma {:induction false} RestrictCell(t: Table, keep: seq<string>, i: nat, name: string)
    requires WellFormed(t) && Distinct(t.columns)
    requires i < |t.rows| && name in Restrict(t, keep).columns
    ensures var r := Restrict(t, keep);
      r.rows[i][IndexOf(r.columns, name)] == t.rows[i][IndexOf(t.columns, name)]
  {
    var r := Restrict(t, keep);
    var ix := KeptIndices(t.columns, keep);
    var j := IndexOf(r.columns, name);
    assert r.rows[i][j] == t.rows[i][ix[j]];
    assert r.columns[j] == t.columns[ix[j]];
    IndexOfDistinct(t.columns, ix[j]);
  }

  // ------------------------------------------------------- concatenation

  /** `acc` followed by the labels of `cols` it does not hold yet. */
  function AddColumns(acc: seq<string>, cols: seq<string>): (r: seq<string>)
    ensures forall c :: c in r <==> c in acc || c in cols
    ensures Distinct(acc) ==> Distinct(r)
    decreases |cols|
  {
    if cols == [] then acc
    else AddColumns(if cols[0] in acc then acc else acc + [cols[0]], cols[1..])
  }

  /** The column labels of a concatenation: every label of every table, once,
      in order of first appearance. */
  function UnionColumns(acc: seq<string>, ts: seq<Table>): (r: seq<string>)
    ensures forall c :: c in r <==> c in acc || exists k :: 0 <= k < |ts| && c in ts[k].columns
    ensures Distinct(acc) ==> Distinct(r)
    decreases |ts|
  {
    if ts == [] then acc
    else
      var r := UnionColumns(AddColumns(acc, ts[0].columns), ts[1..]);
      assert forall k :: 0 < k < |ts| ==> ts[k] == ts[1..][k - 1];
      r
  }

  /** The rows of `t` laid out under the labels `cols`: a label `t` does not
      have gives NaN. */
  function Relayout(t: Table, cols: seq<string>): (rows: seq<Row>)
    requires WellFormed(t)
    ensures |rows| == |t.rows| && forall i :: 0 <= i < |rows| ==> |rows[i]| == |cols|
  {
    seq(|t.rows|, i requires 0 <= i < |t.rows| =>
      seq(|cols|, j requires 0 <= j < |cols| =>
        if cols[j] in t.columns then t.rows[i][IndexOf(t.columns, cols[j])] else NaN))
  }

  function TotalRows(ts: seq<Table>): nat
    decreases |ts|
  {
    if ts == [] then 0 else |ts[0].rows| + TotalRows(ts[1..])
  }

  function ConcatRows(ts: seq<Table>, cols: seq<string>): (rows: seq<Row>)
    requires forall k :: 0 <= k < |ts| ==> WellFormed(ts[k])
    ensures |rows| == TotalRows(ts) && forall i :: 0 <= i < |rows| ==> |rows[i]| == |cols|
    decreases |ts|
  {
    if ts == [] then [] else Relayout(ts[0], cols) + ConcatRows(ts[1..], cols)
  }

  /** `pd.concat(ts, ignore_index=True)`: the rows of every table in order,
      under the union of their labels, NaN where a table lacks a label. */
  function Concat(ts: seq<Table>): (r: Table)
    requires forall k :: 0 <= k < |ts| ==> WellFormed(ts[k])
    ensures WellFormed(r) && Distinct(r.columns) && |r.rows| == TotalRows(ts)
    ensures forall c :: c in r.columns <==> exists k :: 0 <= k < |ts| && c in ts[k].columns
  {
    Table(UnionColumns([], ts), ConcatRows(ts, UnionColumns([], ts)))
  }

  /** The rows before the `k`-th table, counted from the second table on. */
  lemma {:induction false} TotalRowsPrefix(ts: seq<Table>, k: nat)
    requires 0 < k <= |ts|
    ensures TotalRows(ts[..k]) == |ts[0].rows| + TotalRows(ts[1..][..k - 1])
  {
    assert ts[..k][1..] == ts[1..][..k - 1];
  }

  /** The concatenated rows start with the rows of the first table. */
  lemma {:induction false} ConcatRowsCons(ts: seq<Table>, cols: seq<string>)
    requires forall t :: t in ts ==> WellFormed(t)
    requires ts != []
    ensures ConcatRows(ts, cols) == Relayout(ts[0], cols) + ConcatRows(ts[1..], cols)
    ensures |Relayout(ts[0], cols)| == |ts[0].rows|
  {
  }

  /** Row `i` of the `k`-th table is row `TotalRows(ts[..k]) + i` of the
      concatenated rows. */
  lemma {:induction false} ConcatRowsAt(ts: seq<Table>, cols: seq<string>, k: nat, i: nat)
    requires forall t :: t in ts ==> WellFormed(t)
    requires k < |ts| && i < |ts[k].rows|
    ensures TotalRows(ts[..k]) + i < TotalRows(ts)
    ensures ConcatRows(ts, cols)[TotalRows(ts[..k]) + i] == Relayout(ts[k], cols)[i]
    decreases k
  {
    ConcatRowsCons(ts, cols);
    if k == 0 {
      assert ts[..k] == [];
    } else {
      ConcatRowsAt(ts[1..], cols, k - 1, i);
      TotalRowsPrefix(ts, k);
    }
  }

  /** Each cell of a concatenation: row `i` of the `k`-th table, under each
      label of the union, holds that table's cell under the label, or NaN
      when the table lacks it. */
  lemma {:induction false} ConcatCell(ts: seq<Table>, k: nat, i: nat, j: nat)
    requires forall k :: 0 <= k < |ts| ==> WellFormed(ts[k])
    requires k < |ts| && i < |ts[k].rows| && j < |Concat(ts).columns|
    ensures var r := Concat(ts);
      && TotalRows(ts[..k]) + i < |r.rows|
      && r.rows[TotalRows(ts[..k]) + i][j] ==
        if r.columns[j] in ts[k].columns then ts[k].rows[i][IndexOf(ts[k].columns, r.columns[j])] else NaN
  {
    assert forall t :: t in ts ==> WellFormed(t);
    ConcatRowsAt(ts, Concat(ts).columns, k, i);
  }

  /** The cells under `name` all satisfy `p`. */
  predicate ColumnHolds(t: Table, name: string, p: Cell -> bool)
    requires WellFormed(t)
  {
    name in t.columns ==> forall row :: row in t.rows ==> p(row[IndexOf(t.columns, name)])
  }

  lemma {:induction false} ConcatRowsHold(ts: seq<Table>, cols: seq<string>, name: string, p: Cell -> bool)
    requires forall k :: 0 <= k < |ts| ==> WellFormed(ts[k]) && ColumnHolds(ts[k], name, p)
    requires p(NaN) && name in cols
    ensures forall row :: row in ConcatRows(ts, cols) ==> p(row[IndexOf(cols, name)])
    decreases |ts|
  {
    if ts != [] {
      ConcatRowsHold(ts[1..], cols, name, p);
      var j := IndexOf(cols, name);
      var head := Relayout(ts[0], cols);
      forall row | row in head ensures p(row[j]) {
        var i :| 0 <= i < |head| && head[i] == row;
        if name in ts[0].columns {
          assert ts[0].rows[i] in ts[0].rows;
        }
      }
    }
  }

  /** Concatenation keeps a property of the cells under a label when NaN,
      which fills the gaps, has it too. */
  lemma {:induction false} ConcatHolds(ts: seq<Table>, name: string, p: Cell -> bool)
    requires forall k :: 0 <= k < |ts| ==> WellFormed(ts[k]) && ColumnHolds(ts[k], name, p)
    requires p(NaN)
    ensures ColumnHolds(Concat(ts), name, p)
  {
    if name in Concat(ts).columns {
      ConcatRowsHold(ts, UnionColumns([], ts), name, p);
    }
  }

  /** Laying rows out under their own distinct labels changes nothing. */
  lemma {:induction false} RelayoutSelf(t: Table)
    requires WellFormed(t) && Distinct(t.columns)
    ensures Relayout(t, t.columns) == t.rows
  {
    var rows := Relayout(t, t.columns);
    forall i | 0 <= i < |t.rows| ensures rows[i] == t.rows[i] {
      assert t.rows[i] in t.rows;
      forall j | 0 <= j < |t.columns| ensures rows[i][j] == t.rows[i][j] {
        IndexOfDistinct(t.columns, j);
      }
    }
  }

  /** Concatenating a single table with distinct labels gives it back. */
  lemma {:induction false} ConcatSingle(t: Table)
    requires WellFormed(t) && Distinct(t.columns)
    ensures Concat([t]) == t
  {
    AddColumnsDistinct([], t.columns);
    assert [] + t.columns == t.columns;
    assert [t][1..] == [];
    assert UnionColumns([], [t]) == t.columns;
    RelayoutSelf(t);
    assert ConcatRows([t], t.columns) == t.rows + [];
  }

  lemma {:induction false} AddColumnsDistinct(acc: seq<string>, cols: seq<string>)
    requires Distinct(acc + cols)
    ensures AddColumns(acc, cols) == acc + cols
    decreases |cols|
  {
    if cols != [] {
      assert cols[0] !in acc by {
        forall i | 0 <= i < |acc| ensures acc[i] != cols[0] {
          assert (acc + cols)[i] == acc[i] && (acc + cols)[|acc|] == cols[0];
        }
      }
      assert acc + cols == (acc + [cols[0]]) + cols[1..];
      AddColumnsDistinct(acc + [cols[0]], cols[1..]);
    }
  }

  // ------------------------------------------------------------ records

  /** The position of the last column labelled `name`. */
  function LastIndex(cols: seq<string>, name: string): (k: nat)
    requires name in cols
    ensures k < |cols| && cols[k] == name && name !in cols[k + 1..]
    decreases |cols|
  {
    var n := |cols| - 1;
    if cols[n] == name then n
    else
      var k := LastIndex(cols[..n], name);
      assert cols[k + 1..] == cols[..n][k + 1..] + [cols[n]];
      k
  }

  /** A label that does not occur after position `j` has its last column
      at `j`. */
  lemma {:induction false} LastIndexAt(cols: seq<string>, j: nat)
    requires j < |cols| && cols[j] !in cols[j + 1..]
    ensures LastIndex(cols, cols[j]) == j
  {
  }

  /** One row as a dictionary from label to cell; with a repeated label
      the last column wins, as `dict(zip(columns, row))` does. */
  function RowRecord(cols: seq<string>, row: Row): (m: map<string, Cell>)
    requires |row| == |cols|
    ensures forall c :: c in m <==> c in cols
    ensures forall j :: 0 <= j < |cols| && cols[j] !in cols[j + 1..] ==> m[cols[j]] == row[j]
  {
    var m := map c | c in cols :: row[LastIndex(cols, c)];
    assert forall j :: 0 <= j < |cols| && cols[j] !in cols[j + 1..] ==> m[cols[j]] == row[j] by {
      forall j | 0 <= j < |cols| && cols[j] !in cols[j + 1..] ensures m[cols[j]] == row[j] {
        LastIndexAt(cols, j);
      }
    }
    m
  }

  /** `to_dict(orient='records')`: one dictionary per row, in row order. */
  function Records(t: Table): (r: seq<map<string, Cell>>)
    requires WellFormed(t)
    ensures |r| == |t.rows|
    ensures forall i :: 0 <= i < |r| ==> forall c :: c in r[i] <==> c in t.columns
    ensures forall i, j :: 0 <= i < |r| && 0 <= j < |t.columns| && t.columns[j] !in t.columns[j + 1..] ==>
      r[i][t.columns[j]] == t.rows[i][j]
  {
    seq(|t.rows|, i requires 0 <= i < |t.rows| => assert t.rows[i] in t.rows; RowRecord(t.columns, t.rows[i]))
  }

  // -------------------------------------------------------- mutable frame

  /** A DataFrame object, for the operations that change one in place. */
  class Frame {
    var columns: seq<string>
    var rows: seq<Row>

    constructor (t: Table)
      ensures Value() == t
    {
      columns := t.columns;
      rows := t.rows;
    }

    function Value(): Table
      reads this
    {
      Table(columns, rows)
    }

    /** `df.rename(columns=str.lower, inplace=True)`. */
    method RenameColumns()
      modifies this
      ensures columns == LowerAll(old(columns)) && rows == old(rows)
    {
      columns := LowerAll(columns);
    }

    /** `df[columns[k]] = f(df[columns[k]])`. */
    method ReplaceColumn(k: nat, f: Cell -> Cell)
      requires WellFormed(Value()) && k < |columns|
      modifies this
      ensures Value() == MapColumn(old(Value()), k, f)
    {
      var t := MapColumn(Value(), k, f);
      rows := t.rows;
    }
  }
}

/**
 * Tables as pandas holds them here: an ordered list of column labels and
 * rows of cells in the same order, and the accumulation of the downloaded
 * documents' tables into one.
 */
module Frames {
  import opened Wrappers
  import opened Documents

  /**
   * One cell: CSV text as read, a parsed datetime (an instant in
   * microseconds), or a missing value (NaN, or NaT once parsed).
   */
  datatype Cell = Text(text: string) | Stamp(instant: int) | Missing

  datatype Table = Table(columns: seq<string>, rows: seq<seq<Cell>>)

  /** Why a run stops before its write. */
  datatype Error =
    | NoDocuments              // no document survived the filter, so df is still None
    | DownloadFailed(docId: string)
    | MissingColumn(name: string)
    | DuplicateColumn(name: string)
    | BadTimestamp(text: string)

  /** Every row has one cell per column. */
  predicate Rectangular(t: Table) {
    forall i :: 0 <= i < |t.rows| ==> |t.rows[i]| == |t.columns|
  }

  predicate Distinct(names: seq<string>) {
    forall i, j :: 0 <= i < j < |names| ==> names[i] != names[j]
  }

  /** The position of the first column with this label. */
  function IndexOf(names: seq<string>, name: string): (k: nat)
    requires name in names
    ensures k < |names| && names[k] == name && name !in names[..k]
  {
    if names[0] == name then 0
    else
      assert names[1..][..IndexOf(names[1..], name)] == names[1..1 + IndexOf(names[1..], name)];
      1 + IndexOf(names[1..], name)
  }

  /**
   * The value a row holds under a label: the cell of the first column with
   * that label, or a missing value where the table has no such column.
   */
  function Lookup(names: seq<string>, row: seq<Cell>, name: string): (r: Cell)
    requires |row| == |names|
    ensures name !in names ==> r == Missing
  {
    if names == [] then Missing
    else if names[0] == name then row[0]
    else Lookup(names[1..], row[1..], name)
  }

  /** Lookup finds the cell at IndexOf. */
  lemma {:induction false} LookupIndex(names: seq<string>, row: seq<Cell>, name: string)
    requires |row| == |names|
    ensures Lookup(names, row, name) == if name in names then row[IndexOf(names, name)] else Missing
  {
    if names != [] && names[0] != name {
      LookupIndex(names[1..], row[1..], name);
      assert name in names <==> name in names[1..];
    }
  }

  /** The first position holding a label is the one IndexOf finds. */
  lemma IndexOfFirst(names: seq<string>, name: string, k: nat)
    requires k < |names| && names[k] == name && name !in names[..k]
    ensures IndexOf(names, name) == k
  {
    var j := IndexOf(names, name);
    assert forall i :: 0 <= i < k ==> names[..k][i] == names[i];
    assert forall i :: 0 <= i < j ==> names[..j][i] == names[i];
  }

  /** Looking a label up in a row with one more column. */
  lemma LookupSnoc(names: seq<string>, row: seq<Cell>, x: string, c: Cell, name: string)
    requires |row| == |names|
    ensures Lookup(names + [x], row + [c], name)
            == if name in names then Lookup(names, row, name) else if x == name then c else Missing
  {
    var ext := names + [x];
    LookupIndex(ext, row + [c], name);
    LookupIndex(names, row, name);
    if name in names {
      var k := IndexOf(names, name);
      assert ext[..k] == names[..k];
      IndexOfFirst(ext, name, k);
    } else if x == name {
      assert ext[..|names|] == names;
      IndexOfFirst(ext, name, |names|);
    }
  }

  /** The labels of b that a lacks, in b's order. */
  function NewColumns(a: seq<string>, b: seq<string>): (r: seq<string>)
    ensures forall n :: n in r <==> n in b && n !in a
    ensures Distinct(b) ==> Distinct(r)
  {
    if b == [] then []
    else
      var rest := NewColumns(a, b[..|b| - 1]);
      var last := b[|b| - 1];
      assert forall n :: n in b <==> n in b[..|b| - 1] || n == last;
      rest + if last in a then [] else [last]
  }

  /** A row laid out again under the labels target, missing where it has no such label. */
  function Align(names: seq<string>, row: seq<Cell>, target: seq<string>): (r: seq<Cell>)
    requires |row| == |names|
    ensures |r| == |target|
  {
    seq(|target|, k requires 0 <= k < |target| => Lookup(names, row, target[k]))
  }

  /**
   * DataFrame.append(other, ignore_index=True): the columns of a followed
   * by the new columns of b, the rows of a followed by the rows of b, each
   * padded with missing values where its table lacks a column.
   */
  function Append(a: Table, b: Table): (c: Table)
    requires Rectangular(a) && Rectangular(b)
    ensures Rectangular(c) && |c.rows| == |a.rows| + |b.rows|
  {
    var names := a.columns + NewColumns(a.columns, b.columns);
    Table(names, AlignRows(a, names) + AlignRows(b, names))
  }

  /** Every row of t laid out again under the labels names. */
  function AlignRows(t: Table, names: seq<string>): (r: seq<seq<Cell>>)
    requires Rectangular(t)
    ensures |r| == |t.rows| && forall i :: 0 <= i < |r| ==> |r[i]| == |names|
  {
    seq(|t.rows|, i requires 0 <= i < |t.rows| => Align(t.columns, t.rows[i], names))
  }

  /** The appended table keeps a's columns in front, and has a column for every label of a or b. */
  lemma AppendColumns(a: Table, b: Table)
    requires Rectangular(a) && Rectangular(b)
    ensures var c := Append(a, b);
            && |a.columns| <= |c.columns| && c.columns[..|a.columns|] == a.columns
            && forall n :: n in c.columns <==> n in a.columns || n in b.columns
  {
    var c := Append(a, b);
    assert c.columns == a.columns + NewColumns(a.columns, b.columns);
  }

  /** Appending keeps every value of every row, under the same label. */
  lemma AppendKeepsValues(a: Table, b: Table, n: string)
    requires Rectangular(a) && Rectangular(b)
    ensures var c := Append(a, b);
            && (forall i :: 0 <= i < |a.rows| ==>
                  Lookup(c.columns, c.rows[i], n) == Lookup(a.columns, a.rows[i], n))
            && (forall j :: 0 <= j < |b.rows| ==>
                  Lookup(c.columns, c.rows[|a.rows| + j], n) == Lookup(b.columns, b.rows[j], n))
  {
    var c := Append(a, b);
    forall i | 0 <= i < |a.rows| {
      AppendKeepsRow(a, b, i, n);
    }
    forall j | 0 <= j < |b.rows|
      ensures Lookup(c.columns, c.rows[|a.rows| + j], n) == Lookup(b.columns, b.rows[j], n)
    {
      AppendKeepsRow(a, b, |a.rows| + j, n);
    }
  }

  /** Row i of the appended table: a row of a while i < |a.rows|, then a row of b. */
  lemma AppendKeepsRow(a: Table, b: Table, i: nat, n: string)
    requires Rectangular(a) && Rectangular(b) && i < |a.rows| + |b.rows|
    ensures var c := Append(a, b);
            Lookup(c.columns, c.rows[i], n)
            == if i < |a.rows| then Lookup(a.columns, a.rows[i], n) else Lookup(b.columns, b.rows[i - |a.rows|], n)
  {
    var c := Append(a, b);
    AppendColumns(a, b);
    if i < |a.rows| {
      assert c.rows[i] == Align(a.columns, a.rows[i], c.columns);
      LookupAlign(a.columns, a.rows[i], c.columns, n);
    } else {
      assert c.rows[i] == Align(b.columns, b.rows[i - |a.rows|], c.columns);
      LookupAlign(b.columns, b.rows[i - |a.rows|], c.columns, n);
    }
  }

  /** A row laid out under labels that include its own keeps its value under each label. */
  lemma LookupAlign(names: seq<string>, row: seq<Cell>, target: seq<string>, n: string)
    requires |row| == |names| && (n in names ==> n in target)
    ensures Lookup(target, Align(names, row, target), n) == Lookup(names, row, n)
  {
    LookupIndex(target, Align(names, row, target), n);
    if n in target {
      var k := IndexOf(target, n);
      assert Align(names, row, target)[k] == Lookup(names, row, target[k]);
    } else {
      LookupIndex(names, row, n);
    }
  }

  /** Appending tables with distinct labels gives a table with distinct labels. */
  lemma AppendDistinct(a: Table, b: Table)
    requires Rectangular(a) && Rectangular(b) && Distinct(a.columns) && Distinct(b.columns)
    ensures Distinct(Append(a, b).columns)
  {
    var added := NewColumns(a.columns, b.columns);
    var names := a.columns + added;
    forall i, j | 0 <= i < j < |names|
      ensures names[i] != names[j]
    {
      if j >= |a.columns| {
        assert names[j] == added[j - |a.columns|];
        if i >= |a.columns| {
          assert names[i] == added[i - |a.columns|];
        } else {
          assert names[i] in a.columns;
        }
      }
    }
  }

  /** The number of rows of the first m tables of ts. */
  function SumRows(ts: seq<Table>, m: nat): nat
    requires m <= |ts|
  {
    if m == 0 then 0 else SumRows(ts, m - 1) + |ts[m - 1].rows|
  }

  predicate AllRectangular(ts: seq<Table>) {
    forall k :: 0 <= k < |ts| ==> Rectangular(ts[k])
  }

  /**
   * The value of df after the loop has taken the first m tables of ts:
   * None before the first, then the first table, then each later table
   * appended.
   */
  function Combined(ts: seq<Table>, m: nat): (r: Option<Table>)
    requires AllRectangular(ts) && m <= |ts|
    ensures r.Some? <==> m > 0
    ensures r.Some? ==> Rectangular(r.value) && |r.value.rows| == SumRows(ts, m)
  {
    if m == 0 then None
    else
      var before := Combined(ts, m - 1);
      if before.None? then Some(ts[m - 1]) else Some(Append(before.value, ts[m - 1]))
  }

  /** Combined looks at the first m tables only. */
  lemma {:induction false} CombinedPrefix(ts: seq<Table>, us: seq<Table>, m: nat)
    requires AllRectangular(ts) && AllRectangular(us) && m <= |ts| && m <= |us|
    requires forall k :: 0 <= k < m ==> ts[k] == us[k]
    ensures Combined(ts, m) == Combined(us, m)
  {
    if m > 0 {
      CombinedPrefix(ts, us, m - 1);
    }
  }

  /** The combined table has a column for every label of every table taken, and no other. */
  lemma {:induction false} CombinedColumns(ts: seq<Table>, m: nat, n: string)
    requires AllRectangular(ts) && 0 < m <= |ts|
    ensures n in Combined(ts, m).value.columns <==> exists k :: 0 <= k < m && n in ts[k].columns
  {
    var c := Combined(ts, m).value;
    HasColumnStep(ts, m, n);
    if m == 1 {
      assert c == ts[0];
    } else {
      var before := Combined(ts, m - 1).value;
      assert c == Append(before, ts[m - 1]);
      CombinedColumns(ts, m - 1, n);
      AppendColumns(before, ts[m - 1]);
    }
  }

  /** Some of the first m tables has a label exactly when one of the first m - 1 or table m - 1 has it. */
  lemma HasColumnStep(ts: seq<Table>, m: nat, n: string)
    requires 0 < m <= |ts|
    ensures (exists k :: 0 <= k < m && n in ts[k].columns)
            <==> (exists k :: 0 <= k < m - 1 && n in ts[k].columns) || n in ts[m - 1].columns
  {
    if exists k :: 0 <= k < m && n in ts[k].columns {
      var k :| 0 <= k < m && n in ts[k].columns;
      if k < m - 1 {
        assert 0 <= k < m - 1 && n in ts[k].columns;
      }
    }
  }

  /** Tables with distinct labels combine into a table with distinct labels. */
  lemma {:induction false} CombinedDistinct(ts: seq<Table>, m: nat)
    requires AllRectangular(ts) && 0 < m <= |ts|
    requires forall k :: 0 <= k < m ==> Distinct(ts[k].columns)
    ensures Distinct(Combined(ts, m).value.columns)
  {
    if m > 1 {
      CombinedDistinct(ts, m - 1);
      AppendDistinct(Combined(ts, m - 1).value, ts[m - 1]);
    }
  }

  /** Row i of t exists and holds x under label n. */
  predicate HoldsAt(t: Table, i: nat, n: string, x: Cell)
    requires Rectangular(t)
  {
    i < |t.rows| && Lookup(t.columns, t.rows[i], n) == x
  }

  /**
   * Row j of table k sits in the combined table after the rows of the
   * tables before it, and holds the same value under every label.
   */
  lemma {:induction false} CombinedKeepsRows(ts: seq<Table>, m: nat, k: nat, j: nat, n: string)
    requires AllRectangular(ts) && k < m <= |ts| && j < |ts[k].rows|
    ensures HoldsAt(Combined(ts, m).value, SumRows(ts, k) + j, n, Lookup(ts[k].columns, ts[k].rows[j], n))
  {
    if k == m - 1 {
      CombinedLastRows(ts, m, j, n);
    } else {
      CombinedKeepsRows(ts, m - 1, k, j, n);
      CombinedGrows(ts, m, SumRows(ts, k) + j, n, Lookup(ts[k].columns, ts[k].rows[j], n));
    }
  }

  /** The rows of the last table taken come after the rows of the tables before it. */
  lemma CombinedLastRows(ts: seq<Table>, m: nat, j: nat, n: string)
    requires AllRectangular(ts) && 0 < m <= |ts| && j < |ts[m - 1].rows|
    ensures HoldsAt(Combined(ts, m).value, SumRows(ts, m - 1) + j, n, Lookup(ts[m - 1].columns, ts[m - 1].rows[j], n))
  {
    var c := Combined(ts, m).value;
    if m == 1 {
      assert c == ts[0];
    } else {
      var before := Combined(ts, m - 1).value;
      assert c == Append(before, ts[m - 1]);
      AppendedRow(before, ts[m - 1], c, SumRows(ts, m - 1), j, n);
    }
  }

  /** Taking one more table keeps every row already combined, at its place. */
  lemma CombinedGrows(ts: seq<Table>, m: nat, i: nat, n: string, x: Cell)
    requires AllRectangular(ts) && 1 < m <= |ts|
    requires HoldsAt(Combined(ts, m - 1).value, i, n, x)
    ensures HoldsAt(Combined(ts, m).value, i, n, x)
  {
    var before := Combined(ts, m - 1).value;
    var c := Combined(ts, m).value;
    assert c == Append(before, ts[m - 1]);
    AppendedEarlierRow(before, ts[m - 1], c, i, n, x);
  }

  /** A row of a keeps its values once b is appended. */
  lemma AppendedEarlierRow(a: Table, b: Table, c: Table, i: nat, n: string, x: Cell)
    requires Rectangular(a) && Rectangular(b) && c == Append(a, b)
    requires i < |a.rows| && Lookup(a.columns, a.rows[i], n) == x
    ensures i < |c.rows| && Lookup(c.columns, c.rows[i], n) == x
  {
    AppendKeepsRow(a, b, i, n);
  }

  /** Row j of b, appended after the s rows of a. */
  lemma AppendedRow(a: Table, b: Table, c: Table, s: nat, j: nat, n: string)
    requires Rectangular(a) && Rectangular(b) && c == Append(a, b) && s == |a.rows| && j < |b.rows|
    ensures s + j < |c.rows| && Lookup(c.columns, c.rows[s + j], n) == Lookup(b.columns, b.rows[j], n)
  {
    AppendKeepsRow(a, b, s + j, n);
  }

  /** One turn of the loop takes the next table as df, or appends it to df. */
  lemma TakeOne(taken: seq<Table>, tmp: Table, df: Option<Table>)
    requires AllRectangular(taken) && Rectangular(tmp) && df == Combined(taken, |taken|)
    ensures AllRectangular(taken + [tmp])
    ensures df.None? ==> Combined(taken + [tmp], |taken| + 1) == Some(tmp)
    ensures df.Some? ==> Rectangular(df.value) && Combined(taken + [tmp], |taken| + 1) == Some(Append(df.value, tmp))
  {
    var next := taken + [tmp];
    SnocTables(taken, tmp);
    CombinedPrefix(taken, next, |taken|);
  }

  lemma SnocTables(taken: seq<Table>, tmp: Table)
    requires AllRectangular(taken) && Rectangular(tmp)
    ensures AllRectangular(taken + [tmp])
    ensures forall k :: 0 <= k < |taken| ==> taken[k] == (taken + [tmp])[k]
  {
    var next := taken + [tmp];
    forall k | 0 <= k < |next|
      ensures Rectangular(next[k])
    {
      if k < |taken| {
        assert next[k] == taken[k];
      }
    }
  }

  /** The table downloaded and read for each document, in order. */
  function Batches(docs: seq<Document>, downloads: map<string, Table>): (ts: seq<Table>)
    requires forall k :: 0 <= k < |docs| ==> docs[k].docId in downloads
    ensures |ts| == |docs|
    ensures forall k :: 0 <= k < |docs| ==> ts[k] == downloads[docs[k].docId]
  {
    seq(|docs|, k requires 0 <= k < |docs| => downloads[docs[k].docId])
  }

  /**
   * read_csv gives each document a table with one cell per column in every
   * row, and with distinct labels: it renames a repeated header name x to
   * x.1, x.2 and so on. Labels can still collide once they are stripped
   * and renamed, which Normalize models.
   */
  predicate AllReadable(downloads: map<string, Table>) {
    forall id :: id in downloads ==> Rectangular(downloads[id]) && Distinct(downloads[id].columns)
  }

  /**
   * The loop over the kept documents: downloads and reads each in order,
   * takes the first table as df and appends each later one. downloads maps
   * a document ID to the table read from its CSV content; an ID it lacks
   * is a download or read that raised, and stops the run there.
   */
  method Accumulate(docs: seq<Document>, downloads: map<string, Table>) returns (r: Result<Option<Table>, Error>)
    requires AllReadable(downloads)
    ensures r.Ok? <==> forall k :: 0 <= k < |docs| ==> docs[k].docId in downloads
    ensures r.Ok? ==> AllRectangular(Batches(docs, downloads)) && r.value == Combined(Batches(docs, downloads), |docs|)
    ensures r.Ok? && r.value.Some? ==> Distinct(r.value.value.columns)
    ensures r.Err? ==> exists k :: 0 <= k < |docs| && r.error == DownloadFailed(docs[k].docId)
                        && docs[k].docId !in downloads
                        && forall e :: 0 <= e < k ==> docs[e].docId in downloads
  {
    var df: Option<Table> := None;
    ghost var taken: seq<Table> := [];
    var i := 0;
    while i < |docs|
      invariant 0 <= i <= |docs| && |taken| == i
      invariant forall k :: 0 <= k < i ==> docs[k].docId in downloads
      invariant forall k :: 0 <= k < i ==> taken[k] == downloads[docs[k].docId]
      invariant AllRectangular(taken)
      invariant df == Combined(taken, i)
    {
      var id := docs[i].docId;
      if id !in downloads {
        r := Err(DownloadFailed(id));
        assert 0 <= i < |docs| && r.error == DownloadFailed(docs[i].docId) && docs[i].docId !in downloads;
        return;
      }
      var tmp := downloads[id];
      ghost var next := taken + [tmp];
      assert forall k :: 0 <= k < i + 1 ==> docs[k].docId in downloads;
      assert forall k :: 0 <= k < i + 1 ==> next[k] == downloads[docs[k].docId];
      TakeOne(taken, tmp, df);
      if df.None? {
        df := Some(tmp);
      } else {
        df := Some(Append(df.value, tmp));
      }
      taken := next;
      i := i + 1;
    }
    assert taken == Batches(docs, downloads);
    if i > 0 {
      assert forall k :: 0 <= k < i ==> Distinct(taken[k].columns);
      CombinedDistinct(taken, i);
    }
    r := Ok(df);
  }

  /** The cells of xs whose column is not labelled name: DataFrame.drop(columns=[name]) removes every such column. */
  function Omit<T>(xs: seq<T>, names: seq<string>, name: string): (r: seq<T>)
    requires |xs| == |names|
    ensures |r| == |names| - multiset(names)[name]
  {
    if xs == [] then []
    else
      var n := |names| - 1;
      assert names == names[..n] + [names[n]];
      Omit(xs[..n], names[..n], name) + if names[n] == name then [] else [xs[n]]
  }

  /** Dropping a label removes it and keeps the count of every other label. */
  lemma {:induction false} OmitLabels(names: seq<string>, name: string, m: string)
    ensures multiset(Omit(names, names, name))[m] == if m == name then 0 else multiset(names)[m]
    decreases |names|
  {
    if names != [] {
      var n := |names| - 1;
      assert names == names[..n] + [names[n]];
      OmitLabels(names[..n], name, m);
    }
  }

  /** After dropping a label, every other label still finds the same cell. */
  lemma {:induction false} OmitLookup(names: seq<string>, row: seq<Cell>, name: string, m: string)
    requires |row| == |names| && m != name
    ensures |Omit(row, names, name)| == |Omit(names, names, name)|
    ensures Lookup(Omit(names, names, name), Omit(row, names, name), m) == Lookup(names, row, m)
    decreases |names|
  {
    if names != [] {
      var n := |names| - 1;
      assert names == names[..n] + [names[n]];
      assert row == row[..n] + [row[n]];
      OmitLookup(names[..n], row[..n], name, m);
      OmitLabels(names[..n], name, m);
      var kept, cells := Omit(names[..n], names[..n], name), Omit(row[..n], names[..n], name);
      assert Omit(names, names, name) == kept + if names[n] == name then [] else [names[n]];
      assert Omit(row, names, name) == cells + if names[n] == name then [] else [row[n]];
      LookupSnoc(names[..n], row[..n], names[n], row[n], m);
      assert m in kept <==> m in names[..n] by {
        assert m in kept <==> multiset(kept)[m] > 0;
      }
      if names[n] != name {
        LookupSnoc(kept, cells, names[n], row[n], m);
        assert Lookup(kept + [names[n]], cells + [row[n]], m) == Lookup(names, row, m);
      } else {
        assert Omit(names, names, name) == kept && Omit(row, names, name) == cells;
        LookupIndex(names[..n], row[..n], m);
        assert Lookup(names, row, m) == Lookup(names[..n], row[..n], m);
      }
    }
  }

  /** DataFrame.drop(columns=[name]): a KeyError when no column has that label. */
  function DropColumn(t: Table, name: string): (r: Result<Table, Error>)
    requires Rectangular(t)
    ensures r.Ok? <==> name in t.columns
    ensures r.Err? ==> r.error == MissingColumn(name)
    ensures r.Ok? ==> Rectangular(r.value) && |r.value.rows| == |t.rows| && name !in r.value.columns
  {
    if name !in t.columns then Err(MissingColumn(name))
    else
      var names := Omit(t.columns, t.columns, name);
      OmitLabels(t.columns, name, name);
      assert name !in names by {
        assert multiset(names)[name] == 0;
      }
      var rows := seq(|t.rows|, i requires 0 <= i < |t.rows| => Omit(t.rows[i], t.columns, name));
      Ok(Table(names, rows))
  }

  /** The row with every cell under label name replaced by v. */
  function Put(names: seq<string>, row: seq<Cell>, name: string, v: Cell): (r: seq<Cell>)
    requires |row| == |names|
    ensures |r| == |row|
  {
    seq(|row|, k requires 0 <= k < |row| => if names[k] == name then v else row[k])
  }

  /**
   * df[name] = values: every column labelled name takes the values, or a
   * new column with that label is added at the right.
   */
  function SetItem(t: Table, name: string, values: seq<Cell>): (r: Table)
    requires Rectangular(t) && |values| == |t.rows|
    ensures Rectangular(r) && |r.rows| == |t.rows|
  {
    if name in t.columns then
      Table(t.columns, seq(|t.rows|, i requires 0 <= i < |t.rows| => Put(t.columns, t.rows[i], name, values[i])))
    else
      Table(t.columns + [name], seq(|t.rows|, i requires 0 <= i < |t.rows| => t.rows[i] + [values[i]]))
  }

  /** After df[name] = values, row i holds values[i] under name and its old value under every other label. */
  lemma SetItemLookup(t: Table, name: string, values: seq<Cell>, i: nat, m: string)
    requires Rectangular(t) && |values| == |t.rows| && i < |t.rows|
    ensures var r := SetItem(t, name, values);
            Lookup(r.columns, r.rows[i], m) == if m == name then values[i] else Lookup(t.columns, t.rows[i], m)
  {
    var r := SetItem(t, name, values);
    if name !in t.columns {
      LookupSnoc(t.columns, t.rows[i], name, values[i], m);
      LookupIndex(t.columns, t.rows[i], m);
    } else {
      LookupIndex(r.columns, r.rows[i], m);
      LookupIndex(t.columns, t.rows[i], m);
      if m in t.columns {
        var k := IndexOf(t.columns, m);
        assert r.rows[i][k] == if m == name then values[i] else t.rows[i][k];
      }
    }
  }

  /** The labels after df[name] = ...: unchanged when name was there, name added at the right otherwise. */
  function WithLabel(names: seq<string>, name: string): (r: seq<string>)
    ensures name in r && |names| <= |r| && r[..|names|] == names
  {
    if name in names then names else names + [name]
  }

  lemma SetItemColumns(t: Table, name: string, values: seq<Cell>)
    requires Rectangular(t) && |values| == |t.rows|
    ensures SetItem(t, name, values).columns == WithLabel(t.columns, name)
  {
  }

  /**
   * df[name] read as one column: a KeyError when the label is absent; when
   * it is repeated pandas gives a frame, which every use here rejects.
   */
  function ColumnOf(t: Table, name: string): (r: Result<seq<Cell>, Error>)
    requires Rectangular(t)
    ensures r.Ok? <==> multiset(t.columns)[name] == 1
    ensures r.Err? ==> r.error == if name in t.columns then DuplicateColumn(name) else MissingColumn(name)
    ensures r.Ok? ==> |r.value| == |t.rows|
                      && forall i :: 0 <= i < |t.rows| ==> r.value[i] == Lookup(t.columns, t.rows[i], name)
  {
    if name !in t.columns then Err(MissingColumn(name))
    else if multiset(t.columns)[name] > 1 then Err(DuplicateColumn(name))
    else Ok(seq(|t.rows|, i requires 0 <= i < |t.rows| => Lookup(t.columns, t.rows[i], name)))
  }
}

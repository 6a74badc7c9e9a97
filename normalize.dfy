/**
 * The normalisation of the combined table before it is written: column
 * labels stripped and renamed, BatchID dropped, SCEDTimestamp parsed into
 * effective_from, effective_to five minutes later, both floored to five
 * minutes, delivery_date written as YYYY-MM-DD, rows sorted by
 * effective_from.
 */
module Normalize {
  import opened Wrappers
  import opened Text
  import opened Timestamps
  import opened Civil
  import opened Frames

  /** The renaming applied to the stripped labels. */
  const ColumnRemap: map<string, string> :=
    map["SCEDTimestamp" := "effective_from", "RepeatedHourFlag" := "is_day_light_savings",
        "SystemLambda" := "system_lambda"]

  /** df.columns.str.strip(): every label without its surrounding whitespace. */
  function StripLabels(names: seq<string>): (r: seq<string>)
    ensures |r| == |names| && forall k :: 0 <= k < |r| ==> Trimmed(r[k])
  {
    seq(|names|, k requires 0 <= k < |names| => Strip(names[k]))
  }

  /** DataFrame.rename(columns=remap): labels found in remap are replaced, all others kept. */
  function Relabel(names: seq<string>, remap: map<string, string>): (r: seq<string>)
    ensures |r| == |names|
  {
    seq(|names|, k requires 0 <= k < |names| => Renamed(names[k], remap))
  }

  function Renamed(name: string, remap: map<string, string>): string {
    if name in remap then remap[name] else name
  }

  lemma RelabelCons(names: seq<string>, remap: map<string, string>)
    requires names != []
    ensures Relabel(names, remap) == [Renamed(names[0], remap)] + Relabel(names[1..], remap)
  {
    var r := Relabel(names, remap);
    assert forall k :: 0 <= k < |names| - 1 ==> r[1..][k] == Relabel(names[1..], remap)[k];
    assert r == [r[0]] + r[1..];
  }

  /** A label that rename neither replaces nor produces occurs as often as before. */
  lemma {:induction false} RelabelKeeps(names: seq<string>, remap: map<string, string>, n: string)
    requires n !in remap && forall key :: key in remap ==> remap[key] != n
    ensures multiset(Relabel(names, remap))[n] == multiset(names)[n]
    decreases |names|
  {
    if names != [] {
      RelabelCons(names, remap);
      RelabelKeeps(names[1..], remap, n);
      assert names == [names[0]] + names[1..];
    }
  }

  /**
   * A label that rename produces from exactly one key, and that is not
   * itself replaced, occurs as often as it and that key did before: a
   * header holding both SCEDTimestamp and effective_from ends up with
   * effective_from twice.
   */
  lemma {:induction false} RelabelMerges(names: seq<string>, remap: map<string, string>, key: string, n: string)
    requires key in remap && remap[key] == n && n !in remap
    requires forall other :: other in remap && other != key ==> remap[other] != n
    ensures multiset(Relabel(names, remap))[n] == multiset(names)[n] + multiset(names)[key]
    decreases |names|
  {
    if names != [] {
      RelabelCons(names, remap);
      RelabelMerges(names[1..], remap, key, n);
      assert names == [names[0]] + names[1..];
    }
  }

  /** The labels as lines 71 and 76 leave them. */
  function Labels(names: seq<string>): seq<string> {
    Relabel(StripLabels(names), ColumnRemap)
  }

  /** Lines 71 and 76 leave one label per label read, none with surrounding whitespace, renamed or not. */
  lemma LabelsTrimmed(names: seq<string>)
    ensures |Labels(names)| == |names|
    ensures forall k :: 0 <= k < |names| ==> Trimmed(Labels(names)[k])
  {
    RemapTrimmed();
    RelabelTrimmed(StripLabels(names), ColumnRemap);
  }

  lemma RelabelTrimmed(names: seq<string>, remap: map<string, string>)
    requires forall k :: 0 <= k < |names| ==> Trimmed(names[k])
    requires forall key :: key in remap ==> Trimmed(remap[key])
    ensures forall k :: 0 <= k < |names| ==> Trimmed(Relabel(names, remap)[k])
  {
  }

  lemma RemapTrimmed()
    ensures forall key :: key in ColumnRemap ==> Trimmed(ColumnRemap[key])
  {
    assert Trimmed("effective_from") && Trimmed("is_day_light_savings") && Trimmed("system_lambda");
  }

  /** After lines 71 and 76, effective_from occurs once for each stripped SCEDTimestamp or effective_from label. */
  lemma LabelsFrom(names: seq<string>)
    ensures multiset(Labels(names))["effective_from"]
         == multiset(StripLabels(names))["SCEDTimestamp"] + multiset(StripLabels(names))["effective_from"]
  {
    assert "effective_from" !in ColumnRemap;
    RelabelMerges(StripLabels(names), ColumnRemap, "SCEDTimestamp", "effective_from");
  }

  /** A header as read, its labels padded with whitespace, and the labels lines 71 to 79 leave of it. */
  lemma HeaderExample(pad: string)
    requires AllSpace(pad)
    ensures Labels([pad + "SCEDTimestamp" + pad, "BatchID" + pad]) == ["effective_from", "BatchID"]
    ensures Dropped([pad + "SCEDTimestamp" + pad, "BatchID" + pad]) == ["effective_from"]
  {
    StrippedHeader(pad);
    RenamedHeader();
    OmittedHeader();
  }

  lemma RenamedHeader()
    ensures Relabel(["SCEDTimestamp", "BatchID"], ColumnRemap) == ["effective_from", "BatchID"]
  {
    var names := Relabel(["SCEDTimestamp", "BatchID"], ColumnRemap);
    assert "BatchID" !in ColumnRemap;
    assert names[0] == "effective_from" && names[1] == "BatchID";
  }

  lemma OmittedHeader()
    ensures Omit(["effective_from", "BatchID"], ["effective_from", "BatchID"], "BatchID") == ["effective_from"]
  {
    var names := ["effective_from", "BatchID"];
    assert names[..1] == ["effective_from"];
    assert names[..1][..0] == [];
  }

  lemma StrippedHeader(pad: string)
    requires AllSpace(pad)
    ensures StripLabels([pad + "SCEDTimestamp" + pad, "BatchID" + pad]) == ["SCEDTimestamp", "BatchID"]
  {
    assert Trimmed("SCEDTimestamp") && Trimmed("BatchID");
    StripLabelsPadded(pad, "SCEDTimestamp", "BatchID");
  }

  /** Two trimmed labels, the first padded on both sides and the second on the right, strip back to themselves. */
  lemma StripLabelsPadded(pad: string, a: string, b: string)
    requires AllSpace(pad) && Trimmed(a) && Trimmed(b)
    ensures StripLabels([pad + a + pad, b + pad]) == [a, b]
  {
    StripLabelsPair(pad + a + pad, b + pad);
    StripPadded(pad, a);
    StripPadded(pad, b);
  }

  lemma StripLabelsPair(a: string, b: string)
    ensures StripLabels([a, b]) == [Strip(a), Strip(b)]
  {
    var r := StripLabels([a, b]);
    assert r[0] == Strip(a) && r[1] == Strip(b);
  }

  /** A label padded with whitespace on both sides or on the right strips back to itself. */
  lemma StripPadded(pad: string, w: string)
    requires AllSpace(pad) && Trimmed(w)
    ensures Strip(pad + w + pad) == w && Strip(w + pad) == w
  {
    StripSurrounded(pad, w, pad);
    StripRight(w, pad);
  }

  /**
   * Text that pandas.to_datetime reads as NaT before matching the format
   * (pandas' nat_strings).
   */
  const NatTexts: set<string> := {"NaT", "nat", "NAT", "nan", "NaN", "NAN"}

  /** One cell of pandas.to_datetime(df['effective_from'], format='%m/%d/%Y %H:%M:%S'). */
  function ParseCell(c: Cell): (r: Result<Cell, Error>)
    ensures r.Ok? ==> !r.value.Text?
    ensures r.Err? ==> c.Text? && r.error == BadTimestamp(c.text)
  {
    match c
    case Text(s) =>
      if s in NatTexts then Ok(Missing)
      else if ParseTimestamp(s).Some? then Ok(Stamp(ParseTimestamp(s).value))
      else Err(BadTimestamp(s))
    case _ => Ok(c)
  }

  /** The whole column parsed; the first cell that does not parse stops it. */
  function ParseCells(cells: seq<Cell>): (r: Result<seq<Cell>, Error>)
    ensures r.Ok? <==> forall i :: 0 <= i < |cells| ==> ParseCell(cells[i]).Ok?
    ensures r.Ok? ==> |r.value| == |cells| && forall i :: 0 <= i < |cells| ==> r.value[i] == ParseCell(cells[i]).value
    ensures r.Err? ==> exists i :: 0 <= i < |cells| && ParseCell(cells[i]) == Err(r.error)
                        && forall e :: 0 <= e < i ==> ParseCell(cells[e]).Ok?
  {
    if cells == [] then Ok([])
    else
      var head :- ParseCell(cells[0]);
      var rest := ParseCells(cells[1..]);
      ParsedCons(ParseCell, cells, head, cells[1..], rest);
      if rest.Err? then Err(rest.error) else Ok([head] + rest.value)
  }

  /** The step of ParseCells, for any cell parser f: a first cell that parses, then what the rest of the column gives. */
  lemma ParsedCons(f: Cell -> Result<Cell, Error>, cells: seq<Cell>, head: Cell, tail: seq<Cell>, rest: Result<seq<Cell>, Error>)
    requires cells != [] && f(cells[0]) == Ok(head) && tail == cells[1..]
    requires rest.Ok? <==> forall i :: 0 <= i < |tail| ==> f(tail[i]).Ok?
    requires rest.Ok? ==> |rest.value| == |tail| && forall i :: 0 <= i < |tail| ==> rest.value[i] == f(tail[i]).value
    requires rest.Err? ==> exists i :: 0 <= i < |tail| && f(tail[i]) == Err(rest.error)
                            && forall e :: 0 <= e < i ==> f(tail[e]).Ok?
    ensures rest.Ok? <==> forall i :: 0 <= i < |cells| ==> f(cells[i]).Ok?
    ensures rest.Ok? ==> forall i :: 0 <= i < |cells| ==> ([head] + rest.value)[i] == f(cells[i]).value
    ensures rest.Err? ==> exists i :: 0 <= i < |cells| && f(cells[i]) == Err(rest.error)
                           && forall e :: 0 <= e < i ==> f(cells[e]).Ok?
  {
    if rest.Ok? {
      ParsedConsOk(f, cells, head, tail, rest.value);
    } else {
      var i :| 0 <= i < |tail| && f(tail[i]) == Err(rest.error)
               && forall e :: 0 <= e < i ==> f(tail[e]).Ok?;
      ParsedConsErr(f, cells, tail, i);
    }
  }

  lemma ParsedConsOk(f: Cell -> Result<Cell, Error>, cells: seq<Cell>, head: Cell, tail: seq<Cell>, values: seq<Cell>)
    requires cells != [] && f(cells[0]) == Ok(head) && tail == cells[1..]
    requires |values| == |tail| && forall i :: 0 <= i < |tail| ==> f(tail[i]).Ok? && values[i] == f(tail[i]).value
    ensures forall i :: 0 <= i < |cells| ==> f(cells[i]).Ok? && ([head] + values)[i] == f(cells[i]).value
  {
    var r := [head] + values;
    forall i | 0 <= i < |cells|
      ensures f(cells[i]).Ok? && r[i] == f(cells[i]).value
    {
      if i > 0 {
        assert cells[i] == tail[i - 1] && r[i] == values[i - 1];
      }
    }
  }

  lemma ParsedConsErr(f: Cell -> Result<Cell, Error>, cells: seq<Cell>, tail: seq<Cell>, i: nat)
    requires cells != [] && f(cells[0]).Ok? && tail == cells[1..]
    requires i < |tail| && forall e :: 0 <= e < i ==> f(tail[e]).Ok?
    ensures cells[i + 1] == tail[i]
    ensures forall e :: 0 <= e < i + 1 ==> f(cells[e]).Ok?
  {
    forall e | 0 <= e < i + 1
      ensures f(cells[e]).Ok?
    {
      if e > 0 {
        assert cells[e] == tail[e - 1];
      }
    }
  }

  /** + timedelta(minutes=5): NaT stays NaT. */
  function ShiftCell(c: Cell): (r: Cell)
    ensures r.Stamp? <==> c.Stamp?
    ensures r.Stamp? ==> c.instant < r.instant && Floor5(r.instant) == Floor5(c.instant) + FiveMinutes
  {
    if c.Stamp? then FloorOfShift(c.instant); Stamp(c.instant + FiveMinutes) else Missing
  }

  /** .dt.floor('5min'): NaT stays NaT. */
  function FloorCell(c: Cell): (r: Cell)
    ensures r.Stamp? <==> c.Stamp?
    ensures r.Stamp? ==> r.instant % FiveMinutes == 0 && r.instant <= c.instant < r.instant + FiveMinutes
  {
    if c.Stamp? then Stamp(Floor5(c.instant)) else Missing
  }

  /** .dt.strftime('%Y-%m-%d'): NaT gives a missing value. */
  function DateCell(c: Cell): (r: Cell)
    ensures !r.Stamp?
    ensures r.Text? <==> c.Stamp? && PrintableYear(c.instant)
    ensures r.Text? ==> |r.text| == 10 && r.text[4] == '-' && r.text[7] == '-'
  {
    if c.Stamp? && PrintableYear(c.instant) then Text(DeliveryDate(c.instant)) else Missing
  }

  function Each(cells: seq<Cell>, f: Cell -> Cell): (r: seq<Cell>)
    ensures |r| == |cells| && forall i :: 0 <= i < |cells| ==> r[i] == f(cells[i])
  {
    seq(|cells|, i requires 0 <= i < |cells| => f(cells[i]))
  }

  /** A label that appears more than once. */
  function DuplicateLabel(names: seq<string>): (r: string)
    requires !Distinct(names)
    ensures multiset(names)[r] >= 2
  {
    if names[0] in names[1..] then
      assert names == [names[0]] + names[1..];
      names[0]
    else
      assert names == [names[0]] + names[1..];
      DuplicateLabel(names[1..])
  }

  /** Line 82: df['effective_from'] = pd.to_datetime(df['effective_from'], format=...). */
  function ParseFrom(t: Table): (r: Result<Table, Error>)
    requires Rectangular(t)
    ensures r.Ok? ==> Rectangular(r.value) && r.value.columns == t.columns && |r.value.rows| == |t.rows|
  {
    var raw :- ColumnOf(t, "effective_from");
    var parsed :- ParseCells(raw);
    Ok(SetItem(t, "effective_from", parsed))
  }

  /**
   * Lines 85 to 94 each have the form df[target] = f(df[source]): it fails
   * only when source is not exactly one column, and adds target at the
   * right when no column has that label yet.
   */
  function Derive(t: Table, source: string, target: string, f: Cell -> Cell): (r: Result<Table, Error>)
    requires Rectangular(t)
    ensures r.Ok? <==> multiset(t.columns)[source] == 1
    ensures r.Err? ==> r.error == if source in t.columns then DuplicateColumn(source) else MissingColumn(source)
    ensures r.Ok? ==> Rectangular(r.value) && |r.value.rows| == |t.rows|
    ensures r.Ok? ==> r.value.columns == WithLabel(t.columns, target)
  {
    var cells :- ColumnOf(t, source);
    SetItemColumns(t, target, Each(cells, f));
    Ok(SetItem(t, target, Each(cells, f)))
  }

  /** Lines 82 to 94 on the table left by line 79. */
  function Convert(t: Table): (r: Result<Table, Error>)
    requires Rectangular(t)
    ensures r.Ok? ==> Rectangular(r.value) && |r.value.rows| == |t.rows| && "effective_from" in r.value.columns
    ensures r.Ok? ==> r.value.columns == Derived(t.columns)
  {
    var t1 :- ParseFrom(t);
    var t4 :- Intervals(t1);
    Derive(t4, "effective_from", "delivery_date", DateCell)
  }

  /** Lines 85 to 91: effective_to derived from effective_from, then both floored. */
  function Intervals(t: Table): (r: Result<Table, Error>)
    requires Rectangular(t)
    ensures r.Ok? ==> Rectangular(r.value) && |r.value.rows| == |t.rows| && "effective_from" in r.value.columns
    ensures r.Ok? ==> r.value.columns == WithLabel(t.columns, "effective_to")
  {
    var t2 :- Derive(t, "effective_from", "effective_to", ShiftCell);
    var t3 :- Derive(t2, "effective_from", "effective_from", FloorCell);
    Derive(t3, "effective_to", "effective_to", FloorCell)
  }

  /**
   * The table lines 71 to 94 make of the combined table, before the sort;
   * the last test is that of pa.Table.from_pandas at line 100, which
   * refuses repeated labels.
   */
  function Prepare(t: Table): (r: Result<Table, Error>)
    requires Rectangular(t)
    ensures r.Ok? ==> Rectangular(r.value) && |r.value.rows| == |t.rows|
    ensures r.Ok? ==> Distinct(r.value.columns) && "effective_from" in r.value.columns
  {
    var dropped :- DropColumn(Table(Labels(t.columns), t.rows), "BatchID");
    var converted :- Convert(dropped);
    if Distinct(converted.columns) then Ok(converted)
    else Err(DuplicateColumn(DuplicateLabel(converted.columns)))
  }

  /** The labels left once lines 71 to 79 have run. */
  function Dropped(names: seq<string>): seq<string> {
    Omit(Labels(names), Labels(names), "BatchID")
  }

  /** The labels after lines 85 and 94, which add effective_to and then delivery_date at the right unless already there. */
  function Derived(names: seq<string>): seq<string> {
    WithLabel(WithLabel(names, "effective_to"), "delivery_date")
  }

  /** After df[target] = f(df[source]), each row holds f of its source cell under target and is otherwise unchanged. */
  lemma DeriveLookup(t: Table, source: string, target: string, f: Cell -> Cell, i: nat, m: string)
    requires Rectangular(t) && Derive(t, source, target, f).Ok? && i < |t.rows|
    ensures var r := Derive(t, source, target, f).value;
            Lookup(r.columns, r.rows[i], m)
            == if m == target then f(Lookup(t.columns, t.rows[i], source)) else Lookup(t.columns, t.rows[i], m)
  {
    var cells := ColumnOf(t, source).value;
    SetItemLookup(t, target, Each(cells, f), i, m);
  }

  /** After line 82, each row holds its parsed effective_from and is otherwise unchanged. */
  lemma ParseFromLookup(t: Table, i: nat, m: string)
    requires Rectangular(t) && ParseFrom(t).Ok? && i < |t.rows|
    ensures var c := Lookup(t.columns, t.rows[i], "effective_from");
            var r := ParseFrom(t).value;
            && ParseCell(c).Ok?
            && Lookup(r.columns, r.rows[i], m) == if m == "effective_from" then ParseCell(c).value else Lookup(t.columns, t.rows[i], m)
  {
    var raw := ColumnOf(t, "effective_from").value;
    var parsed := ParseCells(raw).value;
    SetItemLookup(t, "effective_from", parsed, i, m);
  }

  /**
   * The labels of a prepared table: those of the combined table, stripped,
   * renamed and without BatchID, then effective_to and delivery_date at the
   * right unless already there.
   */
  lemma PreparedColumns(t: Table)
    requires Rectangular(t) && Prepare(t).Ok?
    ensures Prepare(t).value.columns == Derived(Dropped(t.columns))
    ensures "BatchID" !in Prepare(t).value.columns
    ensures "effective_to" in Prepare(t).value.columns && "delivery_date" in Prepare(t).value.columns
  {
    PreparedIsConverted(t);
    var d := DropColumn(Table(Labels(t.columns), t.rows), "BatchID").value;
    var names := Convert(d).value.columns;
    assert names == Derived(d.columns);
    var withTo := WithLabel(d.columns, "effective_to");
    assert |"BatchID"| != |"effective_to"| && |"BatchID"| != |"delivery_date"|;
    LabelNotAdded(d.columns, "effective_to", "BatchID");
    LabelNotAdded(withTo, "delivery_date", "BatchID");
    assert "effective_to" in withTo;
  }

  /** A label that names lacks is still missing after another label is added. */
  lemma LabelNotAdded(names: seq<string>, name: string, x: string)
    requires x !in names && x != name
    ensures x !in WithLabel(names, name)
  {
  }

  /** How often x occurs once name has been added: once more when x is name and it was missing. */
  lemma LabelCount(names: seq<string>, name: string, x: string)
    ensures multiset(WithLabel(names, name))[x] ==
              if x == name && name !in names then 1 else multiset(names)[x]
  {
  }

  /** Every effective_from cell of t parses. */
  predicate AllParse(t: Table)
    requires Rectangular(t)
  {
    forall i :: 0 <= i < |t.rows| ==> ParseCell(Lookup(t.columns, t.rows[i], "effective_from")).Ok?
  }

  /** e is the error of the first effective_from cell of t that does not parse. */
  predicate FirstBad(t: Table, e: Error)
    requires Rectangular(t)
  {
    exists i :: 0 <= i < |t.rows| && ParseCell(Lookup(t.columns, t.rows[i], "effective_from")) == Err(e)
                && forall j :: 0 <= j < i ==> ParseCell(Lookup(t.columns, t.rows[j], "effective_from")).Ok?
  }

  /**
   * How lines 82 to 94 end: a missing or repeated effective_from stops line
   * 82, then the first cell that does not parse; a repeated effective_to
   * stops line 91; nothing else fails.
   */
  lemma ConvertOutcome(t: Table)
    requires Rectangular(t)
    ensures "effective_from" !in t.columns ==> Convert(t) == Err(MissingColumn("effective_from"))
    ensures multiset(t.columns)["effective_from"] > 1 ==> Convert(t) == Err(DuplicateColumn("effective_from"))
    ensures multiset(t.columns)["effective_from"] == 1 && !AllParse(t) ==>
              Convert(t).Err? && FirstBad(t, Convert(t).error)
    ensures multiset(t.columns)["effective_from"] == 1 && AllParse(t) ==>
              && (Convert(t).Ok? <==> multiset(t.columns)["effective_to"] <= 1)
              && (Convert(t).Err? ==> Convert(t).error == DuplicateColumn("effective_to"))
  {
    ParseFromOutcome(t);
    if multiset(t.columns)["effective_from"] == 1 && !AllParse(t) {
      ParseFromBad(t);
    }
    if multiset(t.columns)["effective_from"] == 1 && AllParse(t) {
      var t1 := ParseFrom(t).value;
      assert multiset(t1.columns)["effective_from"] == 1;
      IntervalsOutcome(t1);
      if Intervals(t1).Ok? {
        var t4 := Intervals(t1).value;
        LabelCount(t1.columns, "effective_to", "effective_from");
        assert multiset(t4.columns)["effective_from"] == 1;
      }
    }
  }

  /** How line 82 ends on the labels: a missing or repeated effective_from stops it, else only the texts can. */
  lemma ParseFromOutcome(t: Table)
    requires Rectangular(t)
    ensures "effective_from" !in t.columns ==> ParseFrom(t) == Err(MissingColumn("effective_from"))
    ensures multiset(t.columns)["effective_from"] > 1 ==> ParseFrom(t) == Err(DuplicateColumn("effective_from"))
    ensures multiset(t.columns)["effective_from"] == 1 && AllParse(t) ==> ParseFrom(t).Ok?
  {
  }

  /** With one effective_from column, line 82 stops on the first text that does not parse. */
  lemma ParseFromBad(t: Table)
    requires Rectangular(t) && multiset(t.columns)["effective_from"] == 1 && !AllParse(t)
    ensures ParseFrom(t).Err? && FirstBad(t, ParseFrom(t).error)
  {
    var raw := ColumnOf(t, "effective_from").value;
    var i :| 0 <= i < |t.rows| && ParseCell(Lookup(t.columns, t.rows[i], "effective_from")).Err?;
    assert ParseCell(raw[i]).Err?;
  }

  /** How lines 85 to 91 end on a table with one effective_from column: only a repeated effective_to stops them. */
  lemma IntervalsOutcome(t: Table)
    requires Rectangular(t) && multiset(t.columns)["effective_from"] == 1
    ensures Intervals(t).Ok? <==> multiset(t.columns)["effective_to"] <= 1
    ensures Intervals(t).Err? ==> Intervals(t).error == DuplicateColumn("effective_to")
  {
    var t2 := Derive(t, "effective_from", "effective_to", ShiftCell).value;
    LabelCount(t.columns, "effective_to", "effective_from");
    LabelCount(t.columns, "effective_to", "effective_to");
    var t3 := Derive(t2, "effective_from", "effective_from", FloorCell).value;
    assert t3.columns == t2.columns;
  }

  /** The effective_from cell of input row i, found under its stripped and renamed label. */
  function FromCell(t: Table, i: nat): Cell
    requires Rectangular(t) && i < |t.rows|
  {
    Lookup(Labels(t.columns), t.rows[i], "effective_from")
  }

  /**
   * After lines 71 to 79, a row holds under every label but BatchID what it
   * held under that label once stripped and renamed.
   */
  lemma DroppedLookup(t: Table, i: nat, m: string)
    requires Rectangular(t) && "BatchID" in Labels(t.columns) && i < |t.rows| && m != "BatchID"
    ensures var d := DropColumn(Table(Labels(t.columns), t.rows), "BatchID").value;
            d.columns == Dropped(t.columns) && |d.rows| == |t.rows|
            && Lookup(d.columns, d.rows[i], m) == Lookup(Labels(t.columns), t.rows[i], m)
  {
    OmitLookup(Labels(t.columns), t.rows[i], "BatchID", m);
  }

  /** The table left by line 79 has the input's effective_from cells. */
  lemma DroppedFromCells(t: Table)
    requires Rectangular(t) && "BatchID" in Labels(t.columns)
    ensures var d := DropColumn(Table(Labels(t.columns), t.rows), "BatchID").value;
            d.columns == Dropped(t.columns) && |d.rows| == |t.rows|
            && forall i :: 0 <= i < |t.rows| ==> Lookup(d.columns, d.rows[i], "effective_from") == FromCell(t, i)
  {
    forall i | 0 <= i < |t.rows| {
      DroppedLookup(t, i, "effective_from");
    }
  }

  /**
   * Where a run stops in lines 71 to 82 for want of a column: without a
   * BatchID column at line 79, without exactly one effective_from column at
   * line 82.
   */
  lemma PrepareMissing(t: Table)
    requires Rectangular(t)
    ensures "BatchID" !in Labels(t.columns) ==> Prepare(t) == Err(MissingColumn("BatchID"))
    ensures "BatchID" in Labels(t.columns) && "effective_from" !in Dropped(t.columns) ==>
              Prepare(t) == Err(MissingColumn("effective_from"))
    ensures "BatchID" in Labels(t.columns) && multiset(Dropped(t.columns))["effective_from"] > 1 ==>
              Prepare(t) == Err(DuplicateColumn("effective_from"))
  {
    if "BatchID" in Labels(t.columns) {
      var d := DropColumn(Table(Labels(t.columns), t.rows), "BatchID").value;
      DroppedAllParse(t);
      ConvertOutcome(d);
      PrepareOfConvert(t);
    }
  }

  /**
   * With one effective_from column, a run stops on a timestamp exactly
   * when some effective_from text does not parse, and then on the first
   * such text in row order.
   */
  lemma PrepareBadTimestamp(t: Table)
    requires Rectangular(t) && "BatchID" in Labels(t.columns)
    requires multiset(Dropped(t.columns))["effective_from"] == 1
    ensures (exists i :: 0 <= i < |t.rows| && ParseCell(FromCell(t, i)).Err?)
            <==> Prepare(t).Err? && Prepare(t).error.BadTimestamp?
    ensures Prepare(t).Err? && Prepare(t).error.BadTimestamp? ==>
              exists i :: 0 <= i < |t.rows| && ParseCell(FromCell(t, i)) == Err(Prepare(t).error)
                          && forall j :: 0 <= j < i ==> ParseCell(FromCell(t, j)).Ok?
  {
    var d := DropColumn(Table(Labels(t.columns), t.rows), "BatchID").value;
    DroppedFromCells(t);
    DroppedAllParse(t);
    PrepareOfConvert(t);
    ConvertOutcome(d);
    BadTimestampOf(t, d, Convert(d), Prepare(t));
  }

  /**
   * PrepareBadTimestamp for the table d line 79 leaves of t and the
   * outcome p of the whole run on t.
   */
  lemma BadTimestampOf(t: Table, d: Table, c: Result<Table, Error>, p: Result<Table, Error>)
    requires Rectangular(t) && Rectangular(d) && |t.rows| == |d.rows|
    requires forall i :: 0 <= i < |d.rows| ==> Lookup(d.columns, d.rows[i], "effective_from") == FromCell(t, i)
    requires AllParse(d) ==> c.Ok? || c.error.DuplicateColumn?
    requires !AllParse(d) ==> c.Err? && FirstBad(d, c.error)
    requires c.Err? ==> p == Err(c.error)
    requires c.Ok? ==> p.Ok? || p.error.DuplicateColumn?
    requires AllParse(d) <==> forall i :: 0 <= i < |t.rows| ==> ParseCell(FromCell(t, i)).Ok?
    ensures (exists i :: 0 <= i < |t.rows| && ParseCell(FromCell(t, i)).Err?) <==> p.Err? && p.error.BadTimestamp?
    ensures p.Err? && p.error.BadTimestamp? ==>
              exists i :: 0 <= i < |t.rows| && ParseCell(FromCell(t, i)) == Err(p.error)
                          && forall j :: 0 <= j < i ==> ParseCell(FromCell(t, j)).Ok?
  {
    if !AllParse(d) {
      var i :| 0 <= i < |d.rows| && ParseCell(Lookup(d.columns, d.rows[i], "effective_from")) == Err(c.error)
               && forall j :: 0 <= j < i ==> ParseCell(Lookup(d.columns, d.rows[j], "effective_from")).Ok?;
      assert ParseCell(FromCell(t, i)) == Err(p.error);
    }
  }

  /** Past line 79, every failure but a repeated label at line 100 is that of lines 82 to 94. */
  lemma PrepareOfConvert(t: Table)
    requires Rectangular(t) && "BatchID" in Labels(t.columns)
    ensures var d := DropColumn(Table(Labels(t.columns), t.rows), "BatchID").value;
            && (Convert(d).Err? ==> Prepare(t) == Err(Convert(d).error))
            && (Convert(d).Ok? ==>
                  Prepare(t) == if Distinct(Convert(d).value.columns) then Ok(Convert(d).value)
                                else Err(DuplicateColumn(DuplicateLabel(Convert(d).value.columns))))
  {
    var dropped := DropColumn(Table(Labels(t.columns), t.rows), "BatchID");
    assert dropped.Ok?;
    var c := Convert(dropped.value);
    assert c.Err? ==> Prepare(t) == Err(c.error);
  }

  /** A prepared table is the one lines 82 to 94 leave, with its labels distinct. */
  lemma PreparedIsConverted(t: Table)
    requires Rectangular(t) && Prepare(t).Ok?
    ensures "BatchID" in Labels(t.columns)
    ensures var d := DropColumn(Table(Labels(t.columns), t.rows), "BatchID").value;
            d.columns == Dropped(t.columns) && "BatchID" !in d.columns
            && Convert(d).Ok? && Prepare(t).value == Convert(d).value
  {
    OmitLabels(Labels(t.columns), "BatchID", "BatchID");
    assert "BatchID" in Labels(t.columns);
    PrepareOfConvert(t);
  }

  /**
   * Once every effective_from text parses, only repeated labels stop a run:
   * a repeated effective_to at line 91, any other at line 100.
   */
  lemma PrepareDuplicates(t: Table)
    requires Rectangular(t) && "BatchID" in Labels(t.columns)
    requires multiset(Dropped(t.columns))["effective_from"] == 1
    requires forall i :: 0 <= i < |t.rows| ==> ParseCell(FromCell(t, i)).Ok?
    ensures multiset(Dropped(t.columns))["effective_to"] > 1 ==> Prepare(t) == Err(DuplicateColumn("effective_to"))
    ensures multiset(Dropped(t.columns))["effective_to"] <= 1 ==>
              (Prepare(t).Ok? <==> Distinct(Derived(Dropped(t.columns))))
    ensures Prepare(t).Err? ==>
              Prepare(t).error.DuplicateColumn? && multiset(Derived(Dropped(t.columns)))[Prepare(t).error.name] >= 2
  {
    var d := DropColumn(Table(Labels(t.columns), t.rows), "BatchID").value;
    DroppedAllParse(t);
    PrepareOfConvert(t);
    ConvertOutcome(d);
    DuplicatesOf(d.columns, Convert(d), Prepare(t));
  }

  /** Every effective_from cell of the input parses exactly when every one left by line 79 does. */
  lemma DroppedAllParse(t: Table)
    requires Rectangular(t) && "BatchID" in Labels(t.columns)
    ensures var d := DropColumn(Table(Labels(t.columns), t.rows), "BatchID").value;
            && d.columns == Dropped(t.columns) && |d.rows| == |t.rows|
            && (AllParse(d) <==> forall i :: 0 <= i < |t.rows| ==> ParseCell(FromCell(t, i)).Ok?)
  {
    DroppedFromCells(t);
  }

  /**
   * The step of PrepareDuplicates on the labels alone: c is what lines 82
   * to 94 give on a table whose labels are names, p what line 100 makes of it.
   */
  lemma DuplicatesOf(names: seq<string>, c: Result<Table, Error>, p: Result<Table, Error>)
    requires c.Ok? <==> multiset(names)["effective_to"] <= 1
    requires c.Err? ==> c.error == DuplicateColumn("effective_to") && p == Err(c.error)
    requires c.Ok? ==> c.value.columns == Derived(names)
    requires c.Ok? ==> p == if Distinct(c.value.columns) then Ok(c.value)
                            else Err(DuplicateColumn(DuplicateLabel(c.value.columns)))
    ensures multiset(names)["effective_to"] > 1 ==> p == Err(DuplicateColumn("effective_to"))
    ensures multiset(names)["effective_to"] <= 1 ==> (p.Ok? <==> Distinct(Derived(names)))
    ensures p.Err? ==> p.error.DuplicateColumn? && multiset(Derived(names))[p.error.name] >= 2
  {
    if c.Err? {
      assert multiset(Derived(names))["effective_to"] >= multiset(names)["effective_to"];
    }
  }

  /**
   * Lines 82 to 94 in one row: effective_from parsed and floored,
   * effective_to five minutes after the parsed value and floored,
   * delivery_date the floored effective_from's date; every other label
   * keeps its cell.
   */
  lemma ConvertLookup(t: Table, i: nat, m: string)
    requires Rectangular(t) && Convert(t).Ok? && i < |t.rows|
    ensures var x := Lookup(t.columns, t.rows[i], "effective_from");
            var r := Convert(t).value;
            && ParseCell(x).Ok?
            && Lookup(r.columns, r.rows[i], m)
               == if m == "effective_from" then FloorCell(ParseCell(x).value)
                  else if m == "effective_to" then FloorCell(ShiftCell(ParseCell(x).value))
                  else if m == "delivery_date" then DateCell(FloorCell(ParseCell(x).value))
                  else Lookup(t.columns, t.rows[i], m)
  {
    var t1 := ParseFrom(t).value;
    var t2 := Derive(t1, "effective_from", "effective_to", ShiftCell).value;
    var t3 := Derive(t2, "effective_from", "effective_from", FloorCell).value;
    var t4 := Derive(t3, "effective_to", "effective_to", FloorCell).value;
    assert Convert(t) == Derive(t4, "effective_from", "delivery_date", DateCell);
    var p := ParseCell(Lookup(t.columns, t.rows[i], "effective_from")).value;
    ParseFromLookup(t, i, "effective_from");
    DeriveLookup(t1, "effective_from", "effective_to", ShiftCell, i, "effective_from");
    DeriveLookup(t2, "effective_from", "effective_from", FloorCell, i, "effective_from");
    DeriveLookup(t3, "effective_to", "effective_to", FloorCell, i, "effective_from");
    assert Lookup(t4.columns, t4.rows[i], "effective_from") == FloorCell(p);
    DeriveLookup(t4, "effective_from", "delivery_date", DateCell, i, m);
    if m == "effective_to" {
      DeriveLookup(t1, "effective_from", "effective_to", ShiftCell, i, m);
      DeriveLookup(t2, "effective_from", "effective_from", FloorCell, i, m);
      DeriveLookup(t3, "effective_to", "effective_to", FloorCell, i, m);
    } else if m != "effective_from" && m != "delivery_date" {
      ParseFromLookup(t, i, m);
      DeriveLookup(t1, "effective_from", "effective_to", ShiftCell, i, m);
      DeriveLookup(t2, "effective_from", "effective_from", FloorCell, i, m);
      DeriveLookup(t3, "effective_to", "effective_to", FloorCell, i, m);
    }
  }

  /** One prepared row in terms of the same row of the combined table. */
  lemma PreparedRows(t: Table, i: nat, m: string)
    requires Rectangular(t) && Prepare(t).Ok? && i < |t.rows|
    ensures var p := Prepare(t).value;
            && |p.rows| == |t.rows|
            && ParseCell(FromCell(t, i)).Ok?
            && Lookup(p.columns, p.rows[i], m)
               == if m == "effective_from" then FloorCell(ParseCell(FromCell(t, i)).value)
                  else if m == "effective_to" then FloorCell(ShiftCell(ParseCell(FromCell(t, i)).value))
                  else if m == "delivery_date" then DateCell(FloorCell(ParseCell(FromCell(t, i)).value))
                  else if m == "BatchID" then Missing
                  else Lookup(Labels(t.columns), t.rows[i], m)
  {
    var d := DropColumn(Table(Labels(t.columns), t.rows), "BatchID").value;
    PreparedIsConverted(t);
    DroppedLookup(t, i, "effective_from");
    ConvertLookup(d, i, m);
    if m == "BatchID" {
      LookupIndex(d.columns, d.rows[i], m);
    } else {
      DroppedLookup(t, i, m);
    }
  }

  /**
   * A normalised row: effective_from, effective_to and delivery_date are
   * all missing, or effective_from is on a five-minute boundary,
   * effective_to is five minutes later and delivery_date is
   * effective_from's date as YYYY-MM-DD.
   */
  predicate Interval(names: seq<string>, row: seq<Cell>)
    requires |row| == |names|
  {
    IntervalCells(Lookup(names, row, "effective_from"), Lookup(names, row, "effective_to"), Lookup(names, row, "delivery_date"))
  }

  predicate IntervalCells(from: Cell, to: Cell, date: Cell) {
    || (from.Missing? && to.Missing? && date.Missing?)
    || (&& from.Stamp? && from.instant % FiveMinutes == 0 && to == Stamp(from.instant + FiveMinutes)
        && (PrintableYear(from.instant) ==> date == Text(DeliveryDate(from.instant))))
  }

  /** The three cells lines 85 to 94 derive from a parsed effective_from form an interval. */
  lemma IntervalOfCells(names: seq<string>, row: seq<Cell>, c: Cell)
    requires |row| == |names| && !c.Text?
    requires Lookup(names, row, "effective_from") == FloorCell(c)
    requires Lookup(names, row, "effective_to") == FloorCell(ShiftCell(c))
    requires Lookup(names, row, "delivery_date") == DateCell(FloorCell(c))
    ensures Interval(names, row)
  {
    FloorCellsInterval(c);
  }

  lemma FloorCellsInterval(c: Cell)
    requires !c.Text?
    ensures IntervalCells(FloorCell(c), FloorCell(ShiftCell(c)), DateCell(FloorCell(c)))
  {
    if c.Stamp? {
      FloorOfShift(c.instant);
    }
  }

  /** Every prepared row is a five-minute interval with its delivery date. */
  lemma PreparedIntervals(t: Table)
    requires Rectangular(t) && Prepare(t).Ok?
    ensures var p := Prepare(t).value;
            forall k :: 0 <= k < |p.rows| ==> Interval(p.columns, p.rows[k])
  {
    var p := Prepare(t).value;
    forall k | 0 <= k < |p.rows|
      ensures Interval(p.columns, p.rows[k])
    {
      PreparedRows(t, k, "effective_from");
      PreparedRows(t, k, "effective_to");
      PreparedRows(t, k, "delivery_date");
      IntervalOfCells(p.columns, p.rows[k], ParseCell(FromCell(t, k)).value);
    }
  }

  /**
   * The cells derived from SCEDTimestamp text that parses: effective_from
   * is its wall-clock reading with the minute set back to a multiple of 5
   * and no seconds, effective_to five minutes later, delivery_date the date
   * written in the text as YYYY-MM-DD.
   */
  lemma ReadingCells(s: string)
    requires s !in NatTexts && ParseCell(Text(s)).Ok?
    ensures ScanTimestamp(s).Some?
    ensures var d := ScanTimestamp(s).value;
            var c := ParseCell(Text(s)).value;
            && FloorCell(c).Stamp?
            && DateTimeOf(FloorCell(c).instant) == DateTime(d.date, d.hour, d.minute - d.minute % 5, 0, 0)
            && FloorCell(ShiftCell(c)) == Stamp(FloorCell(c).instant + FiveMinutes)
            && DateCell(FloorCell(c)) == Text(FormatDate(d.date))
  {
    assert ParseTimestamp(s).Some?;
    var d := ScanTimestamp(s).value;
    assert ParseCell(Text(s)) == Ok(Stamp(InstantOf(d)));
    ReadingOf(d);
  }

  /** ReadingCells for the datetime the text denotes. */
  lemma ReadingOf(d: DateTime)
    requires ValidDateTime(d) && 1 <= d.date.year < 10000 && d.microsecond == 0
    ensures var c := Stamp(InstantOf(d));
            && DateTimeOf(FloorCell(c).instant) == DateTime(d.date, d.hour, d.minute - d.minute % 5, 0, 0)
            && FloorCell(ShiftCell(c)) == Stamp(FloorCell(c).instant + FiveMinutes)
            && DateCell(FloorCell(c)) == Text(FormatDate(d.date))
  {
    var t := InstantOf(d);
    FloorOfReading(d);
    FloorOfShift(t);
    FloorKeepsDay(t);
    assert t / MicrosPerDay == DayNumber(d.date);
    DateOfDayNumber(d.date);
    assert DateOf(Floor5(t)) == d.date;
  }

  /** Every row has a cell in column k. */
  predicate Wide(rows: seq<seq<Cell>>, k: nat) {
    forall i :: 0 <= i < |rows| ==> k < |rows[i]|
  }

  /** The rows with a datetime in column k, in their order. */
  function Stamped(rows: seq<seq<Cell>>, k: nat): (r: seq<seq<Cell>>)
    requires Wide(rows, k)
    ensures Wide(r, k) && forall i :: 0 <= i < |r| ==> r[i][k].Stamp?
  {
    if rows == [] then []
    else Stamped(rows[..|rows| - 1], k) + if rows[|rows| - 1][k].Stamp? then [rows[|rows| - 1]] else []
  }

  /** The rows with NaT in column k, in their order. */
  function Unstamped(rows: seq<seq<Cell>>, k: nat): (r: seq<seq<Cell>>)
    requires Wide(rows, k)
    ensures forall i :: 0 <= i < |r| ==> k < |r[i]| && !r[i][k].Stamp?
  {
    if rows == [] then []
    else Unstamped(rows[..|rows| - 1], k) + if rows[|rows| - 1][k].Stamp? then [] else [rows[|rows| - 1]]
  }

  /** Rows ordered by the datetimes in column k. */
  predicate SortedOn(rows: seq<seq<Cell>>, k: nat) {
    && (forall i :: 0 <= i < |rows| ==> k < |rows[i]| && rows[i][k].Stamp?)
    && (forall i, j :: 0 <= i < j < |rows| ==> rows[i][k].instant <= rows[j][k].instant)
  }

  /**
   * sorted is an order sort_values(by=column k) may give rows: the rows with
   * a datetime first, in non-decreasing order of it, then the NaT rows in
   * their original order. Rows with equal datetimes may come in any order.
   */
  predicate SortedAs(sorted: seq<seq<Cell>>, rows: seq<seq<Cell>>, k: nat)
    requires Wide(rows, k)
  {
    var s := Stamped(rows, k);
    && |sorted| == |rows| && |s| <= |sorted|
    && SortedOn(sorted[..|s|], k)
    && multiset(sorted[..|s|]) == multiset(s)
    && sorted[|s|..] == Unstamped(rows, k)
  }

  /** Splitting rows by whether column k holds a datetime loses and adds none. */
  lemma {:induction false} SplitCount(rows: seq<seq<Cell>>, k: nat)
    requires Wide(rows, k)
    ensures multiset(Stamped(rows, k)) + multiset(Unstamped(rows, k)) == multiset(rows)
    ensures |Stamped(rows, k)| + |Unstamped(rows, k)| == |rows|
    decreases |rows|
  {
    if rows != [] {
      var n := |rows| - 1;
      assert rows == rows[..n] + [rows[n]];
      SplitCount(rows[..n], k);
    }
  }

  /** A sorted result holds the same rows, each as often. */
  lemma SortedIsPermutation(sorted: seq<seq<Cell>>, rows: seq<seq<Cell>>, k: nat)
    requires Wide(rows, k) && SortedAs(sorted, rows, k)
    ensures multiset(sorted) == multiset(rows)
  {
    SplitCount(rows, k);
    PermutationOfParts(sorted, Stamped(rows, k), Unstamped(rows, k), rows);
  }

  /** A sequence made of a reordering of s followed by u holds the rows s and u split. */
  lemma PermutationOfParts(sorted: seq<seq<Cell>>, s: seq<seq<Cell>>, u: seq<seq<Cell>>, rows: seq<seq<Cell>>)
    requires multiset(s) + multiset(u) == multiset(rows)
    requires |s| <= |sorted| && multiset(sorted[..|s|]) == multiset(s) && sorted[|s|..] == u
    ensures multiset(sorted) == multiset(rows)
  {
    assert sorted == sorted[..|s|] + sorted[|s|..];
  }

  function Insert(row: seq<Cell>, sorted: seq<seq<Cell>>, k: nat): (r: seq<seq<Cell>>)
    requires k < |row| && row[k].Stamp? && SortedOn(sorted, k)
    ensures |r| == |sorted| + 1 && (r[0] == row || (sorted != [] && r[0] == sorted[0]))
    ensures SortedOn(r, k) && multiset(r) == multiset(sorted) + multiset{row}
  {
    if sorted == [] || row[k].instant <= sorted[0][k].instant then
      ConsSorted(row, sorted, k);
      [row] + sorted
    else
      SortedTail(sorted, k);
      var rest := Insert(row, sorted[1..], k);
      InsertBehind(row, sorted, rest, k);
      [sorted[0]] + rest
  }

  /** Dropping the first row of a sorted sequence keeps it sorted. */
  lemma SortedTail(sorted: seq<seq<Cell>>, k: nat)
    requires sorted != [] && SortedOn(sorted, k)
    ensures SortedOn(sorted[1..], k)
  {
    assert forall i :: 0 <= i < |sorted| - 1 ==> sorted[1..][i] == sorted[i + 1];
  }

  /**
   * A row that sorts after the first row of sorted, inserted into the rest,
   * gives the first row followed by that insertion.
   */
  lemma InsertBehind(row: seq<Cell>, sorted: seq<seq<Cell>>, rest: seq<seq<Cell>>, k: nat)
    requires k < |row| && row[k].Stamp? && sorted != [] && SortedOn(sorted, k)
    requires sorted[0][k].instant < row[k].instant
    requires |rest| == |sorted| && (rest[0] == row || (|sorted| > 1 && rest[0] == sorted[1]))
    requires SortedOn(rest, k) && multiset(rest) == multiset(sorted[1..]) + multiset{row}
    ensures var r := [sorted[0]] + rest;
            && |r| == |sorted| + 1 && SortedOn(r, k)
            && multiset(r) == multiset(sorted) + multiset{row}
  {
    assert sorted == [sorted[0]] + sorted[1..];
    assert multiset(sorted) == multiset{sorted[0]} + multiset(sorted[1..]);
    assert multiset([sorted[0]] + rest) == multiset{sorted[0]} + multiset(rest);
    ConsSorted(sorted[0], rest, k);
  }

  lemma ConsSorted(x: seq<Cell>, rest: seq<seq<Cell>>, k: nat)
    requires k < |x| && x[k].Stamp? && SortedOn(rest, k)
    requires rest != [] ==> x[k].instant <= rest[0][k].instant
    ensures SortedOn([x] + rest, k)
  {
    var r: seq<seq<Cell>> := [x] + rest;
    forall i, j | 0 <= i < j < |r|
      ensures r[i][k].instant <= r[j][k].instant
    {
      if i == 0 {
        assert r[j] == rest[j - 1];
        assert rest[0][k].instant <= rest[j - 1][k].instant || j == 1;
      }
    }
  }

  function InsertionSort(rows: seq<seq<Cell>>, k: nat): (r: seq<seq<Cell>>)
    requires forall i :: 0 <= i < |rows| ==> k < |rows[i]| && rows[i][k].Stamp?
    ensures SortedOn(r, k) && multiset(r) == multiset(rows)
  {
    if rows == [] then []
    else
      assert rows == [rows[0]] + rows[1..];
      Insert(rows[0], InsertionSort(rows[1..], k), k)
  }

  /** One order sort_values(by=column k) may give. */
  function SortRows(rows: seq<seq<Cell>>, k: nat): (r: seq<seq<Cell>>)
    requires Wide(rows, k)
    ensures SortedAs(r, rows, k)
  {
    var sorted := InsertionSort(Stamped(rows, k), k);
    SplitCount(rows, k);
    assert |sorted| == |multiset(sorted)| == |Stamped(rows, k)|;
    assert (sorted + Unstamped(rows, k))[..|sorted|] == sorted;
    sorted + Unstamped(rows, k)
  }

  /** Sorting keeps a table rectangular and each of its rows. */
  lemma RowsOfSorted(t: Table, sorted: seq<seq<Cell>>, k: nat)
    requires Rectangular(t) && Wide(t.rows, k) && SortedAs(sorted, t.rows, k)
    ensures Rectangular(Table(t.columns, sorted))
    ensures forall i :: 0 <= i < |sorted| ==> exists j :: 0 <= j < |t.rows| && sorted[i] == t.rows[j]
  {
    SortedIsPermutation(sorted, t.rows, k);
    forall i | 0 <= i < |sorted|
      ensures exists j :: 0 <= j < |t.rows| && sorted[i] == t.rows[j]
    {
      assert sorted[i] in multiset(t.rows);
    }
  }

  /** The combined DataFrame, changed in place by the normalisation steps. */
  class Frame {
    var columns: seq<string>
    var rows: seq<seq<Cell>>

    function View(): Table
      reads this
    {
      Table(columns, rows)
    }

    constructor (t: Table)
      ensures View() == t
    {
      columns := t.columns;
      rows := t.rows;
    }

    /** df.columns = names */
    method SetColumns(names: seq<string>)
      requires |names| == |columns|
      modifies this
      ensures View() == Table(names, old(rows))
    {
      columns := names;
    }

    /** df.rename(columns=remap, inplace=True) */
    method Rename(remap: map<string, string>)
      modifies this
      ensures View() == Table(Relabel(old(columns), remap), old(rows))
    {
      columns := Relabel(columns, remap);
    }

    /** df.drop(columns=[name], inplace=True); on a KeyError the frame is left as it was. */
    method Drop(name: string) returns (e: Option<Error>)
      requires Rectangular(View())
      modifies this
      ensures DropColumn(old(View()), name).Ok? ==> e.None? && View() == DropColumn(old(View()), name).value
      ensures DropColumn(old(View()), name).Err? ==> e == Some(DropColumn(old(View()), name).error) && View() == old(View())
    {
      var r := DropColumn(View(), name);
      if r.Err? {
        return Some(r.error);
      }
      columns, rows := r.value.columns, r.value.rows;
      return None;
    }

    /** df[name] read as one column. */
    function Column(name: string): Result<seq<Cell>, Error>
      requires Rectangular(View())
      reads this
    {
      ColumnOf(View(), name)
    }

    /** df[name] = values */
    method SetItem(name: string, values: seq<Cell>)
      requires Rectangular(View()) && |values| == |rows|
      modifies this
      ensures View() == Frames.SetItem(old(View()), name, values)
    {
      var t := Frames.SetItem(View(), name, values);
      columns, rows := t.columns, t.rows;
    }

    /** Line 82: df['effective_from'] = pd.to_datetime(df['effective_from'], format=...). */
    method ToDatetime() returns (e: Option<Error>)
      requires Rectangular(View())
      modifies this
      ensures ParseFrom(old(View())).Err? ==> e == Some(ParseFrom(old(View())).error) && View() == old(View())
      ensures ParseFrom(old(View())).Ok? ==> e.None? && View() == ParseFrom(old(View())).value
    {
      var raw := Column("effective_from");
      if raw.Err? {
        return Some(raw.error);
      }
      var parsed := ParseCells(raw.value);
      if parsed.Err? {
        return Some(parsed.error);
      }
      SetItem("effective_from", parsed.value);
      return None;
    }

    /** Lines 85 to 94: df[target] = f(df[source]). */
    method Assign(target: string, source: string, f: Cell -> Cell) returns (e: Option<Error>)
      requires Rectangular(View())
      modifies this
      ensures Derive(old(View()), source, target, f).Err? ==> e == Some(Derive(old(View()), source, target, f).error) && View() == old(View())
      ensures Derive(old(View()), source, target, f).Ok? ==> e.None? && View() == Derive(old(View()), source, target, f).value
    {
      var cells := Column(source);
      if cells.Err? {
        return Some(cells.error);
      }
      SetItem(target, Each(cells.value, f));
      return None;
    }

    /**
     * Lines 82 to 94 in order; the first step that raises stops the rest.
     * A failure at line 82 leaves the frame as it was; a later one leaves
     * it with the steps before it done, as pandas does.
     */
    method ConvertTimestamps() returns (e: Option<Error>)
      requires Rectangular(View())
      modifies this
      ensures Convert(old(View())).Err? ==> e == Some(Convert(old(View())).error)
      ensures ParseFrom(old(View())).Err? ==> View() == old(View())
      ensures Convert(old(View())).Ok? ==> e.None? && View() == Convert(old(View())).value
    {
      e := ToDatetime();
      if e.Some? {
        return;
      }
      e := Assign("effective_to", "effective_from", ShiftCell);
      if e.Some? {
        return;
      }
      e := Assign("effective_from", "effective_from", FloorCell);
      if e.Some? {
        return;
      }
      e := Assign("effective_to", "effective_to", FloorCell);
      if e.Some? {
        return;
      }
      e := Assign("delivery_date", "effective_from", DateCell);
    }

    /** df.sort_values(by=[name], inplace=True) */
    method SortValues(name: string)
      requires Rectangular(View()) && name in columns
      modifies this
      ensures columns == old(columns)
      ensures SortedAs(rows, old(rows), IndexOf(columns, name))
    {
      rows := SortRows(rows, IndexOf(columns, name));
    }
  }

  /**
   * Lines 71 to 100 on the loop's result: None (no document kept) fails at
   * line 71; otherwise the frame goes through each step in place, and the
   * result is the prepared table with its rows in an order sort_values
   * may give.
   */
  /** r is p after line 97: the same labels, and p's rows in an order sort_values(by=['effective_from']) may give. */
  predicate SortedFrom(r: Table, p: Table)
    requires Rectangular(p) && "effective_from" in p.columns
  {
    r.columns == p.columns && SortedAs(r.rows, p.rows, IndexOf(p.columns, "effective_from"))
  }

  method Normalize(df: Option<Table>) returns (r: Result<Table, Error>)
    requires df.Some? ==> Rectangular(df.value)
    ensures df.None? ==> r == Err(NoDocuments)
    ensures df.Some? && Prepare(df.value).Err? ==> r == Err(Prepare(df.value).error)
    ensures df.Some? && Prepare(df.value).Ok? ==> r.Ok? && SortedFrom(r.value, Prepare(df.value).value)
    ensures r.Ok? ==> Rectangular(r.value)
                      && forall k :: 0 <= k < |r.value.rows| ==> Interval(r.value.columns, r.value.rows[k])
  {
    if df.None? {
      return Err(NoDocuments);
    }
    var frame := new Frame(df.value);
    frame.SetColumns(StripLabels(frame.columns));
    frame.Rename(ColumnRemap);
    var e := frame.Drop("BatchID");
    if e.Some? {
      return Err(e.value);
    }
    e := frame.ConvertTimestamps();
    if e.Some? {
      return Err(e.value);
    }
    ghost var prepared := frame.View();
    frame.SortValues("effective_from");
    if !Distinct(frame.columns) {
      return Err(DuplicateColumn(DuplicateLabel(frame.columns)));
    }
    RowsOfSorted(prepared, frame.rows, IndexOf(frame.columns, "effective_from"));
    PreparedIntervals(df.value);
    return Ok(frame.View());
  }
}

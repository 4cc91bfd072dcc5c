/** The GDELT dimension tables of `gdelt_append.py`: the fixed policy of
    `define_dimension_cols`, and `create_dimension_df`, which explodes a
    `;`-separated cell into one row per entry and splits each entry on `#`
    into positional fields keyed by the record's id. */
module Dimensions {
  import opened Wrappers
  import opened Strings
  import opened Seqs
  import opened Frames

  /** One dimension: its name, the GKG column it is read from, and the
      names of the fields of each entry, in position order. */
  datatype Dimension = Dimension(name: string, input: string, outputs: seq<string>)

  /** `define_dimension_cols`. */
  const DimensionCols := [
    Dimension("locations", "LocationsV2", LocationFields),
    Dimension("organisations", "OrganizationsV2", ["org_name", "text_position"]),
    Dimension("persons", "PersonsV2", ["person_name", "text_position"]),
    Dimension("names", "NamesV2", ["name", "text_position"])
  ]

  const LocationFields := ["location_type", "location_name", "country_code", "adm1_code", "adm2_code", "",
                            "latitude", "longitude", "text_position"]

  /** The policy names four dimensions, each read from its own column,
      every one ending with the entry's text position. */
  lemma DimensionPolicy()
    ensures |DimensionCols| == 4
    ensures Map((d: Dimension) => d.name, DimensionCols) == ["locations", "organisations", "persons", "names"]
    ensures forall i, j :: 0 <= i < j < 4 ==> DimensionCols[i].input != DimensionCols[j].input
    ensures forall i :: 0 <= i < 4 ==> Last(DimensionCols[i].outputs) == "text_position"
    ensures |DimensionCols[0].outputs| == 9 && DimensionCols[0].outputs[5] == ""
  {
  }

  function MissingCells(n: nat): (r: seq<Cell>)
    ensures |r| == n && forall i :: 0 <= i < n ==> r[i] == Missing
  {
    seq(n, _ => Missing)
  }

  /** The leading text cells of a row, up to the first missing one. */
  function TextPrefix(cells: seq<Cell>): seq<string>
    decreases |cells|
  {
    if |cells| == 0 || !cells[0].Text? then [] else [cells[0].s] + TextPrefix(cells[1..])
  }

  /** `.str.split('#', expand=True)` for one entry, in a frame of `width`
      columns: the pieces in position order, then missing cells. An entry
      with more pieces than named outputs cannot be labelled and is
      rejected. */
  function EntryFields(e: string, width: nat): (r: Result<seq<Cell>>)
    ensures r.Success? <==> |Split(e, '#')| <= width
    ensures r.Failure? ==> r.error.kind == ValueError
    ensures r.Success? ==> |r.value| == width
    ensures r.Success? ==> forall k :: |Split(e, '#')| <= k < width ==> r.value[k] == Missing
    ensures r.Success? ==> TextPrefix(r.value) == Split(e, '#')
  {
    var parts := Split(e, '#');
    if |parts| > width then Failure(Error(ValueError, "Length mismatch"))
    else
      var cells := Map((p: string) => Text(p), parts) + MissingCells(width - |parts|);
      TextPrefixOf(parts, width - |parts|);
      Success(cells)
  }

  lemma {:induction false} TextPrefixOf(parts: seq<string>, n: nat)
    ensures TextPrefix(Map((p: string) => Text(p), parts) + MissingCells(n)) == parts
    decreases |parts|
  {
    var cells := Map((p: string) => Text(p), parts) + MissingCells(n);
    if |parts| == 0 {
      assert cells == MissingCells(n);
    } else {
      assert cells[1..] == Map((p: string) => Text(p), parts[1..]) + MissingCells(n);
      TextPrefixOf(parts[1..], n);
      assert [parts[0]] + parts[1..] == parts;
    }
  }

  /** A split entry reads back as the entry: its leading text fields joined
      with `#`. */
  lemma EntryRoundTrip(e: string, width: nat)
    requires EntryFields(e, width).Success?
    ensures Join("#", TextPrefix(EntryFields(e, width).value)) == e
  {
  }

  /** The rows of one record's entries, each `[id] + fields`. */
  function EntryRows(id: Cell, entries: seq<string>, width: nat): (r: Result<seq<seq<Cell>>>)
    ensures r.Success? <==> forall k :: 0 <= k < |entries| ==> |Split(entries[k], '#')| <= width
    ensures r.Failure? ==> r.error.kind == ValueError
    ensures r.Success? ==> |r.value| == |entries|
    ensures r.Success? ==> forall k :: 0 <= k < |r.value| ==>
              && |r.value[k]| == width + 1 && r.value[k][0] == id
              && TextPrefix(r.value[k][1..]) == Split(entries[k], '#')
    decreases |entries|
  {
    if |entries| == 0 then Success([])
    else
      match EntryFields(entries[0], width)
      case Failure(e) => Failure(e)
      case Success(f) =>
        match EntryRows(id, entries[1..], width)
        case Failure(e) =>
          assert exists k :: 0 <= k < |entries[1..]| && |Split(entries[1..][k], '#')| > width;
          Failure(e)
        case Success(rest) =>
          assert forall k :: 1 <= k < |entries| ==> entries[k] == entries[1..][k - 1];
          Success([[id] + f] + rest)
  }

  /** The pieces of one cell: `;`-separated text, or a single missing
      entry for anything `.str.split` does not split. */
  function PieceCount(v: Cell): nat {
    if v.Text? then |Split(v.s, ';')| else 1
  }

  /** One record's block: a row per piece of its cell. */
  function RecordRows(id: Cell, v: Cell, width: nat): (r: Result<seq<seq<Cell>>>)
    ensures r.Success? ==> |r.value| == PieceCount(v)
    ensures r.Success? ==> forall k :: 0 <= k < |r.value| ==> |r.value[k]| == width + 1 && r.value[k][0] == id
    ensures !v.Text? ==> r == Success([[id] + MissingCells(width)])
    ensures r.Failure? <==> TooWide(v, width)
    ensures r.Failure? ==> r.error.kind == ValueError
  {
    if v.Text? then EntryRows(id, Split(v.s, ';'), width)
    else Success([[id] + MissingCells(width)])
  }

  /** A cell with an entry that has more `#` pieces than named outputs. */
  predicate TooWide(v: Cell, width: nat) {
    v.Text? && exists k :: 0 <= k < |Split(v.s, ';')| && |Split(Split(v.s, ';')[k], '#')| > width
  }

  /** The rows of a record's block reassemble its cell: each row's fields
      joined with `#`, the rows joined with `;`. */
  lemma RecordRejoin(id: Cell, s: string, width: nat)
    requires RecordRows(id, Text(s), width).Success?
    ensures var rows := RecordRows(id, Text(s), width).value;
            Join(";", seq(|rows|, k requires 0 <= k < |rows| => Join("#", TextPrefix(rows[k][1..])))) == s
  {
    var entries := Split(s, ';');
    var rows := RecordRows(id, Text(s), width).value;
    var joined := seq(|rows|, k requires 0 <= k < |rows| => Join("#", TextPrefix(rows[k][1..])));
    forall k | 0 <= k < |rows| ensures joined[k] == entries[k] {
      assert TextPrefix(rows[k][1..]) == Split(entries[k], '#');
    }
    assert joined == entries;
  }

  /** The exploded rows of all records, record by record. */
  function DimensionRows(ids: seq<Cell>, vals: seq<Cell>, width: nat): (r: Result<seq<seq<Cell>>>)
    requires |ids| == |vals|
    ensures r.Failure? <==> exists i :: 0 <= i < |vals| && TooWide(vals[i], width)
    ensures r.Failure? ==> r.error.kind == ValueError
    ensures r.Success? ==> |r.value| == SumOf(PieceCount, vals)
    ensures r.Success? ==> forall k :: 0 <= k < |r.value| ==> |r.value[k]| == width + 1 && r.value[k][0] in ids
    decreases |ids|
  {
    if |ids| == 0 then Success([])
    else
      match RecordRows(ids[0], vals[0], width)
      case Failure(e) => Failure(e)
      case Success(block) =>
        match DimensionRows(ids[1..], vals[1..], width)
        case Failure(e) =>
          assert exists i :: 0 <= i < |vals[1..]| && TooWide(vals[1..][i], width);
          Failure(e)
        case Success(rest) =>
          assert forall i :: 1 <= i < |vals| ==> vals[i] == vals[1..][i - 1];
          assert forall k :: 0 <= k < |rest| ==> rest[k][0] in ids[1..];
          Success(block + rest)
  }

  /** The rows of a non-empty run of records: the first record's block,
      then the rest. */
  lemma DimensionRowsCons(ids: seq<Cell>, vals: seq<Cell>, width: nat)
    requires |ids| == |vals| > 0
    requires RecordRows(ids[0], vals[0], width).Success? && DimensionRows(ids[1..], vals[1..], width).Success?
    ensures DimensionRows(ids, vals, width) ==
            Success(RecordRows(ids[0], vals[0], width).value + DimensionRows(ids[1..], vals[1..], width).value)
  {
  }

  /** A run of records that explodes has a first record that explodes, and
      so does the rest. */
  lemma DimensionRowsSplit(ids: seq<Cell>, vals: seq<Cell>, width: nat)
    requires |ids| == |vals| > 0 && DimensionRows(ids, vals, width).Success?
    ensures RecordRows(ids[0], vals[0], width).Success? && DimensionRows(ids[1..], vals[1..], width).Success?
  {
  }

  /** Records keep their input order: the rows of two runs of records are
      the rows of the first followed by those of the second. */
  lemma {:induction false} DimensionRowsAppend(ids1: seq<Cell>, vals1: seq<Cell>, ids2: seq<Cell>, vals2: seq<Cell>, width: nat)
    requires |ids1| == |vals1| && |ids2| == |vals2|
    requires DimensionRows(ids1, vals1, width).Success? && DimensionRows(ids2, vals2, width).Success?
    ensures DimensionRows(ids1 + ids2, vals1 + vals2, width) ==
            Success(DimensionRows(ids1, vals1, width).value + DimensionRows(ids2, vals2, width).value)
    decreases |ids1|
  {
    if |ids1| == 0 {
      assert ids1 + ids2 == ids2 && vals1 + vals2 == vals2;
      assert DimensionRows(ids1, vals1, width).value == [];
      assert [] + DimensionRows(ids2, vals2, width).value == DimensionRows(ids2, vals2, width).value;
    } else {
      DimensionRowsSplit(ids1, vals1, width);
      DimensionRowsAppend(ids1[1..], vals1[1..], ids2, vals2, width);
      AppendStep(ids1, vals1, ids2, vals2, width);
    }
  }

  /** The inductive step of `DimensionRowsAppend`: the first record's block
      goes in front of the rows of the rest of both runs. */
  lemma AppendStep(ids1: seq<Cell>, vals1: seq<Cell>, ids2: seq<Cell>, vals2: seq<Cell>, width: nat)
    requires |ids1| == |vals1| > 0 && |ids2| == |vals2|
    requires RecordRows(ids1[0], vals1[0], width).Success?
    requires DimensionRows(ids1[1..], vals1[1..], width).Success? && DimensionRows(ids2, vals2, width).Success?
    requires DimensionRows(ids1[1..] + ids2, vals1[1..] + vals2, width) ==
             Success(DimensionRows(ids1[1..], vals1[1..], width).value + DimensionRows(ids2, vals2, width).value)
    ensures DimensionRows(ids1, vals1, width).Success?
    ensures DimensionRows(ids1 + ids2, vals1 + vals2, width) ==
            Success(DimensionRows(ids1, vals1, width).value + DimensionRows(ids2, vals2, width).value)
  {
    DimensionRowsCons(ids1, vals1, width);
    var ids := ids1 + ids2;
    var vals := vals1 + vals2;
    ConsAppend(ids1, ids2);
    ConsAppend(vals1, vals2);
    DimensionRowsCons(ids, vals, width);
    ConcatAssoc(RecordRows(ids1[0], vals1[0], width).value, DimensionRows(ids1[1..], vals1[1..], width).value,
                DimensionRows(ids2, vals2, width).value);
  }

  lemma ConsAppend<T>(a: seq<T>, b: seq<T>)
    requires |a| > 0
    ensures (a + b)[0] == a[0] && (a + b)[1..] == a[1..] + b
  {
  }

  lemma ConcatAssoc<T>(a: seq<T>, b: seq<T>, c: seq<T>)
    ensures a + (b + c) == (a + b) + c
  {
  }

  /** A single record contributes exactly its own block. */
  lemma SingleRecord(id: Cell, v: Cell, width: nat)
    requires RecordRows(id, v, width).Success?
    ensures DimensionRows([id], [v], width) == RecordRows(id, v, width)
  {
    assert [id][1..] == [] && [v][1..] == [];
    var block := RecordRows(id, v, width).value;
    assert DimensionRows([], [], width) == Success([]);
    assert block + [] == block;
  }

  /** `create_dimension_df(df, input_col, output_cols)` with the intended
      result: columns `id` and the output names, one row per entry. The
      input column is read before `id`, and a missing column is a
      KeyError. */
  function CreateDimensionDf(t: Table, input: string, outputs: seq<string>): (r: Result<Table>)
    requires WellFormed(t)
    ensures r.Failure? && r.error.kind == KeyError <==> input !in t.columns || "id" !in t.columns
    ensures r.Success? ==> r.value.columns == ["id"] + outputs
    ensures r.Success? ==> |r.value.rows| == SumOf(PieceCount, Column(t, input).value)
    ensures r.Success? ==> forall k :: 0 <= k < |r.value.rows| ==> |r.value.rows[k]| == |outputs| + 1
  {
    var vals :- Column(t, input);
    var ids :- Column(t, "id");
    match DimensionRows(ids, vals, |outputs|)
    case Failure(e) => Failure(e)
    case Success(rows) => Success(Table(["id"] + outputs, rows))
  }

  /** `pd.concat(df.loc[:,'id'], cols)`: `concat` takes a list of frames
      as its first argument and is given a single Series. */
  const ConcatSeries := Error(TypeError, "first argument must be an iterable of pandas objects, you passed an object of type \"Series\"")

  /** Whether some cell of a column holds text. On a non-empty column
      without text, pandas gives the column a float (all missing) or
      boolean dtype, and `.str` refuses it. */
  predicate HasText(vals: seq<Cell>) {
    exists i :: 0 <= i < |vals| && vals[i].Text?
  }

  /** `.str` on a column whose dtype is not a string dtype. */
  const NoStrings := Error(AttributeError, "Can only use .str accessor with string values!")

  /** `create_dimension_df` as written. The dimension column is read and
      split first: a non-empty column without any text makes `.str` raise.
      Otherwise the `id` column is read and the `concat` call raises before
      any table is built. */
  function CreateDimensionDfAsWritten(t: Table, input: string, outputs: seq<string>): (r: Result<Table>)
    requires WellFormed(t)
    ensures r.Failure?
    ensures input !in t.columns ==> r.error.kind == KeyError
    ensures input in t.columns && |t.rows| > 0 && !HasText(Column(t, input).value) ==> r.error == NoStrings
    ensures input in t.columns && (|t.rows| == 0 || HasText(Column(t, input).value)) ==>
              r.error == (if "id" in t.columns then ConcatSeries else Error(KeyError, "id"))
  {
    var vals :- Column(t, input);
    if |vals| > 0 && !HasText(vals) then Failure(NoStrings)
    else
      var ids :- Column(t, "id");
      Failure(ConcatSeries)
  }

  /** A non-empty dimension column with no text fails as written at the
      `.str` accessor, before `concat` is reached, while the intended
      function gives one all-missing row per record. */
  lemma MissingColumnFailsEarly(id: string, input: string, outputs: seq<string>)
    requires input != "id"
    ensures var t := Table(["id", input], [[Text(id), Missing]]);
            && WellFormed(t)
            && CreateDimensionDfAsWritten(t, input, outputs) == Failure(NoStrings)
            && CreateDimensionDf(t, input, outputs) == Success(Table(["id"] + outputs, [[Text(id)] + MissingCells(|outputs|)]))
  {
    var t := Table(["id", input], [[Text(id), Missing]]);
    assert IndexOf(t.columns, input) == 1;
    assert Column(t, input).value == [Missing];
    assert Column(t, "id").value == [Text(id)];
    SingleRecord(Text(id), Missing, |outputs|);
  }

  /** As written no input table yields a dimension table, while the
      intended function yields one exactly when both columns exist and no
      entry has more fields than the dimension names. */
  lemma AsWrittenNeverBuilds(t: Table, input: string, outputs: seq<string>)
    requires WellFormed(t)
    ensures CreateDimensionDfAsWritten(t, input, outputs).Failure?
    ensures CreateDimensionDf(t, input, outputs).Success? <==>
              && input in t.columns && "id" in t.columns
              && forall i :: 0 <= i < |t.rows| ==> !TooWide(Column(t, input).value[i], |outputs|)
  {
  }

  /** The discrepancy on a concrete GKG row: one record whose locations
      cell holds two entries. As written no table results; the intended
      function gives two rows keyed by the record's id. */
  lemma DimensionCounterexample()
    ensures var t := Table(["id", "LocationsV2"], [[Text("r1"), Text("1#AU;4#US")]]);
            && WellFormed(t)
            && CreateDimensionDfAsWritten(t, "LocationsV2", LocationFields).Failure?
            && CreateDimensionDf(t, "LocationsV2", LocationFields).Success?
            && |CreateDimensionDf(t, "LocationsV2", LocationFields).value.rows| == 2
  {
    ExampleCell();
    OneRecordTable("r1", "1#AU;4#US", "LocationsV2", LocationFields);
  }

  /** A table of one record whose cell fits the outputs gives one row per
      piece of the cell. */
  lemma OneRecordTable(id: string, cell: string, input: string, outputs: seq<string>)
    requires input != "id" && !TooWide(Text(cell), |outputs|)
    ensures var t := Table(["id", input], [[Text(id), Text(cell)]]);
            && WellFormed(t)
            && CreateDimensionDfAsWritten(t, input, outputs).Failure?
            && CreateDimensionDf(t, input, outputs).Success?
            && |CreateDimensionDf(t, input, outputs).value.rows| == PieceCount(Text(cell))
  {
    var t := Table(["id", input], [[Text(id), Text(cell)]]);
    assert WellFormed(t);
    var cells := [Text(cell)];
    assert IndexOf(t.columns, input) == 1 && IndexOf(t.columns, "id") == 0;
    var vals := Column(t, input);
    var ids := Column(t, "id");
    assert vals.Success? && |vals.value| == 1 && vals.value[0] == Text(cell);
    assert vals.value == cells;
    assert ids.Success? && |ids.value| == 1 && ids.value[0] == Text(id);
    assert ids.value == [Text(id)];
    SingleRecord(Text(id), Text(cell), |outputs|);
    assert SumOf(PieceCount, cells) == PieceCount(Text(cell)) by {
      assert cells[1..] == [];
    }
    AsWrittenNeverBuilds(t, input, outputs);
  }

  /** The example cell splits into two entries of two fields each, so it
      fits the nine location fields. */
  lemma ExampleCell()
    ensures Split("1#AU;4#US", ';') == ["1#AU", "4#US"]
    ensures !TooWide(Text("1#AU;4#US"), 9)
    ensures PieceCount(Text("1#AU;4#US")) == 2
  {
    assert "1#AU;4#US" == "1" + "#" + "AU" + ";" + ("4" + "#" + "US");
    assert "1#AU" == "1" + "#" + "AU" && "4#US" == "4" + "#" + "US";
    TwoEntryCell("1", "AU", "4", "US");
  }

  /** A cell `a1#b1;a2#b2` holds two entries of two fields each. */
  lemma TwoEntryCell(a1: string, b1: string, a2: string, b2: string)
    requires '#' !in a1 && '#' !in b1 && '#' !in a2 && '#' !in b2
    requires ';' !in a1 && ';' !in b1 && ';' !in a2 && ';' !in b2
    ensures var e1 := a1 + "#" + b1;
            var e2 := a2 + "#" + b2;
            var s := e1 + ";" + e2;
            && Split(s, ';') == [e1, e2]
            && (forall width: nat :: width >= 2 ==> !TooWide(Text(s), width))
            && PieceCount(Text(s)) == 2
  {
    var e1 := a1 + "#" + b1;
    var e2 := a2 + "#" + b2;
    assert ';' !in e1 && ';' !in e2 by {
      assert e1 == a1 + ['#'] + b1 && e2 == a2 + ['#'] + b2;
    }
    assert e1 + ";" + e2 == e1 + [';'] + e2;
    SplitAtFirst(e1, ';', e2);
    SplitNoSeparator(e2, ';');
    TwoFields(a1, b1);
    TwoFields(a2, b2);
  }

  lemma TwoFields(a: string, b: string)
    requires '#' !in a && '#' !in b
    ensures |Split(a + "#" + b, '#')| == 2
  {
    assert a + "#" + b == a + ['#'] + b;
    SplitAtFirst(a, '#', b);
    SplitNoSeparator(b, '#');
  }
}

/** `scripts/gdelt_tech_filter.py`: the same tagging stages as
    `tech_filter.py` on a raw GDELT file, but the rows are selected with
    `dropna(how='all', subset=flag_columns)` before `combined_text` is
    dropped, and the upload sends the bare output file name. */
module GdeltFilter {
  import opened Wrappers
  import opened Seqs
  import opened Frames
  import opened KeywordRegex
  import opened Delivery
  import opened TechFilter

  predicate Present(c: Cell) {
    c != Missing
  }

  /** `dropna(how='all', subset=names)`: a row goes only when every named
      cell is missing; with no names at all, every row goes. */
  function DropAllMissing(t: Table, names: seq<string>): (r: Result<Table>)
    requires WellFormed(t)
    ensures r.Success? <==> ColumnsPresent(t.columns, names)
    ensures r.Success? ==> WellFormed(r.value) && r.value.columns == t.columns
    ensures r.Success? ==> forall i :: 0 <= i < |t.rows| ==>
              (t.rows[i] in r.value.rows <==>
                 exists j :: 0 <= j < |names| && t.rows[i][IndexOf(t.columns, names[j])] != Missing)
  {
    SelectRows(t, names, Present)
  }

  /** `os.path.join` refuses a missing output name. */
  const NoOutputName := Error(TypeError, "expected str, bytes or os.PathLike object, not NoneType")

  /** `main` of `gdelt_tech_filter.py` as written, after the input file has
      been read into `t`. */
  function RunGdeltFilterAsWritten(t: Table, outputName: Option<string>, cols: seq<string>,
                                   techs: seq<TechTerm>, m: Matcher, save: Option<string>): (r: Result<FilterOutput>)
    requires WellFormed(t)
    ensures !ColumnsPresent(t.columns + (if Combined in t.columns then [] else [Combined]), cols) ==> r.Failure?
    ensures r.Success? ==> outputName == Some(r.value.outputName)
    ensures r.Success? ==> |r.value.table.rows| <= |t.rows| && Combined !in r.value.table.columns
    ensures r.Success? ==> (r.value.actions != [] <==> save == Some("gdrive"))
    ensures r.Success? ==> forall a :: a in r.value.actions ==> a == Upload(r.value.outputName)
  {
    var compiled := AddRegexPattern(techs);
    var tagged :- TagTable(t, cols, compiled, m);
    // every flag column is present, so the selection cannot fail
    var kept := DropAllMissing(tagged, Names(compiled)).value;
    var dropped := DropColumn(kept, Combined).value;
    if outputName.None? then Failure(NoOutputName)
    else Success(FilterOutput(dropped, outputName.value, DriveOnlyActions(save, outputName.value)))
  }

  /** The same script with the selection of `tech_filter.py`: keep the
      rows in which some technology column is true. */
  function RunGdeltFilter(t: Table, outputName: Option<string>, cols: seq<string>,
                          techs: seq<TechTerm>, m: Matcher, save: Option<string>): (r: Result<FilterOutput>)
    requires WellFormed(t)
    ensures !ColumnsPresent(t.columns + (if Combined in t.columns then [] else [Combined]), cols) ==> r.Failure?
    ensures r.Success? ==> outputName == Some(r.value.outputName)
    ensures r.Success? ==> |r.value.table.rows| <= |t.rows| && Combined !in r.value.table.columns
    ensures r.Success? ==> (r.value.actions != [] <==> save == Some("gdrive"))
  {
    var selected :- FilterTable(t, cols, AddRegexPattern(techs), m);
    if outputName.None? then Failure(NoOutputName)
    else Success(FilterOutput(selected, outputName.value, DriveOnlyActions(save, outputName.value)))
  }

  /** A flag cell is never missing, so with at least one technology no
      tagged row is dropped. */
  lemma TaggedRowsPresent(t: Table, texts: seq<string>, techs: seq<CompiledTech>, m: Matcher)
    requires WellFormed(t) && |texts| == |t.rows| && FreshTechs(t, techs) && |techs| >= 1
    ensures WellFormed(Tagged(t, texts, techs, m))
    ensures DropAllMissing(Tagged(t, texts, techs, m), Names(techs)) == Success(Tagged(t, texts, techs, m))
  {
    TaggedWellFormed(t, texts, techs, m);
    var tagged := Tagged(t, texts, techs, m);
    TaggedFlagsPresent(t, texts, techs, m);
    TaggedNamesPresent(t, texts, techs, m);
    FilterAll((row: seq<Cell>) => AnyNamed(row, tagged.columns, Names(techs), Present), tagged.rows);
  }

  /** Every technology names a column of the tagged table. */
  lemma TaggedNamesPresent(t: Table, texts: seq<string>, techs: seq<CompiledTech>, m: Matcher)
    requires |texts| == |t.rows|
    ensures ColumnsPresent(Tagged(t, texts, techs, m).columns, Names(techs))
  {
    var cols := Tagged(t, texts, techs, m).columns;
    var names := Names(techs);
    forall j | 0 <= j < |names| ensures names[j] in cols {
      assert cols[|t.columns| + 1 + j] == names[j];
    }
  }

  /** Every tagged row has a present cell in the first flag column. */
  lemma TaggedFlagsPresent(t: Table, texts: seq<string>, techs: seq<CompiledTech>, m: Matcher)
    requires WellFormed(t) && |texts| == |t.rows| && FreshTechs(t, techs) && |techs| >= 1
    ensures WellFormed(Tagged(t, texts, techs, m))
    ensures var tagged := Tagged(t, texts, techs, m);
            forall i :: 0 <= i < |tagged.rows| ==> AnyNamed(tagged.rows[i], tagged.columns, Names(techs), Present)
  {
    TaggedWellFormed(t, texts, techs, m);
    var tagged := Tagged(t, texts, techs, m);
    var names := Names(techs);
    var k := |t.columns| + 1;
    assert tagged.columns[k] == names[0];
    IndexOfUnique(tagged.columns, k);
    forall i | 0 <= i < |tagged.rows| ensures AnyNamed(tagged.rows[i], tagged.columns, names, Present) {
      assert tagged.rows[i][k] == Flags(texts[i], techs, m)[0];
      FlaggedRowPresent(tagged.rows[i], tagged.columns, names, k);
    }
  }

  lemma FlaggedRowPresent(row: seq<Cell>, columns: seq<string>, names: seq<string>, k: nat)
    requires |names| >= 1 && k < |row| && IndexOf(columns, names[0]) == k && row[k].Flag?
    ensures AnyNamed(row, columns, names, Present)
  {
  }

  /** As written, with at least one technology every input row survives,
      flags included, whatever the patterns match. */
  lemma AsWrittenKeepsEveryRow(t: Table, name: string, cols: seq<string>,
                               techs: seq<TechTerm>, m: Matcher, save: Option<string>)
    requires WellFormed(t) && Combined !in t.columns && ColumnsPresent(t.columns, cols)
    requires FreshTechs(t, AddRegexPattern(techs)) && |techs| >= 1
    ensures var r := RunGdeltFilterAsWritten(t, Some(name), cols, techs, m, save);
            && r.Success?
            && r.value.table == Table(t.columns + Names(AddRegexPattern(techs)),
                                      Extended(t, CombinedTexts(t, cols), AddRegexPattern(techs), m))
  {
    var compiled := AddRegexPattern(techs);
    var texts := CombinedTexts(t, cols);
    var tagged := Tagged(t, texts, compiled, m);
    TagTableFresh(t, cols, compiled, m);
    TaggedRowsPresent(t, texts, compiled, m);
    DropCombinedTagged(t, texts, compiled, m);
    AsWrittenStages(t, name, cols, techs, m, save, tagged,
                    Table(t.columns + Names(compiled), Extended(t, texts, compiled, m)));
  }

  /** The as-written script is its stages in sequence. */
  lemma AsWrittenStages(t: Table, name: string, cols: seq<string>, techs: seq<TechTerm>, m: Matcher,
                        save: Option<string>, tagged: Table, out: Table)
    requires WellFormed(t) && WellFormed(tagged) && Combined in tagged.columns
    requires TagTable(t, cols, AddRegexPattern(techs), m) == Success(tagged)
    requires DropAllMissing(tagged, Names(AddRegexPattern(techs))) == Success(tagged)
    requires DropColumn(tagged, Combined) == Success(out)
    ensures RunGdeltFilterAsWritten(t, Some(name), cols, techs, m, save) ==
            Success(FilterOutput(out, name, DriveOnlyActions(save, name)))
  {
  }

  /** As written, with no technology configured every row is dropped. */
  lemma AsWrittenNoTechsDropsAll(t: Table, name: string, cols: seq<string>, m: Matcher, save: Option<string>)
    requires WellFormed(t) && Combined !in t.columns && ColumnsPresent(t.columns, cols)
    ensures var r := RunGdeltFilterAsWritten(t, Some(name), cols, [], m, save);
            r.Success? && r.value.table.rows == []
  {
    var compiled := AddRegexPattern([]);
    assert Names(compiled) == [];
    var tagged := TagTable(t, cols, compiled, m).value;
    NoSubsetDropsAll(tagged);
    var kept := DropAllMissing(tagged, []).value;
    AsWrittenPipeline(t, name, cols, [], m, save, kept);
  }

  /** `dropna(how='all', subset=[])` drops every row. */
  lemma NoSubsetDropsAll(t: Table)
    requires WellFormed(t)
    ensures DropAllMissing(t, []).Success? && DropAllMissing(t, []).value.rows == []
  {
    FilterNone((row: seq<Cell>) => AnyNamed(row, t.columns, [], Present), t.rows);
  }

  /** The as-written script is its stages in sequence, whatever they keep. */
  lemma AsWrittenPipeline(t: Table, name: string, cols: seq<string>, techs: seq<TechTerm>, m: Matcher,
                          save: Option<string>, kept: Table)
    requires WellFormed(t) && Combined !in t.columns && ColumnsPresent(t.columns, cols)
    requires TagTable(t, cols, AddRegexPattern(techs), m).Success?
    requires DropAllMissing(TagTable(t, cols, AddRegexPattern(techs), m).value, Names(AddRegexPattern(techs))) == Success(kept)
    ensures RunGdeltFilterAsWritten(t, Some(name), cols, techs, m, save).Success?
    ensures |RunGdeltFilterAsWritten(t, Some(name), cols, techs, m, save).value.table.rows| == |kept.rows|
  {
  }

  /** Corrected, the script keeps exactly the rows some pattern matches, in
      input order and extended with their flags, as `tech_filter.py`
      does. */
  lemma GdeltFilterSpec(t: Table, name: string, cols: seq<string>,
                        techs: seq<TechTerm>, m: Matcher, save: Option<string>)
    requires WellFormed(t) && Combined !in t.columns && ColumnsPresent(t.columns, cols)
    requires FreshTechs(t, AddRegexPattern(techs))
    ensures var r := RunGdeltFilter(t, Some(name), cols, techs, m, save);
            var compiled := AddRegexPattern(techs);
            var ext := Extended(t, CombinedTexts(t, cols), compiled, m);
            && r.Success?
            && r.value.table.columns == t.columns + Names(compiled)
            && r.value.outputName == name
            && r.value.table.rows == Filter((row: seq<Cell>) => AnyFlagFrom(row, |t.columns|), ext)
            && forall i :: 0 <= i < |t.rows| ==>
                 (ext[i] in r.value.table.rows <==> Matched(CombinedTexts(t, cols)[i], compiled, m))
  {
    var compiled := AddRegexPattern(techs);
    FilterTableSpec(t, cols, compiled, m);
    CorrectedStages(t, name, cols, techs, m, save, FilterTable(t, cols, compiled, m).value);
  }

  /** The corrected script is the filter of `tech_filter.py` under the
      given name. */
  lemma CorrectedStages(t: Table, name: string, cols: seq<string>, techs: seq<TechTerm>, m: Matcher,
                        save: Option<string>, out: Table)
    requires WellFormed(t)
    requires FilterTable(t, cols, AddRegexPattern(techs), m) == Success(out)
    ensures RunGdeltFilter(t, Some(name), cols, techs, m, save) ==
            Success(FilterOutput(out, name, DriveOnlyActions(save, name)))
  {
  }

  /** Corrected, no row survives when no pattern matches any row. */
  lemma CorrectedDropsUnmatched(t: Table, name: string, cols: seq<string>,
                                techs: seq<TechTerm>, m: Matcher, save: Option<string>)
    requires WellFormed(t) && Combined !in t.columns && ColumnsPresent(t.columns, cols)
    requires FreshTechs(t, AddRegexPattern(techs))
    requires forall i :: 0 <= i < |t.rows| ==> !Matched(CombinedTexts(t, cols)[i], AddRegexPattern(techs), m)
    ensures RunGdeltFilter(t, Some(name), cols, techs, m, save).Success?
    ensures RunGdeltFilter(t, Some(name), cols, techs, m, save).value.table.rows == []
  {
    var compiled := AddRegexPattern(techs);
    var texts := CombinedTexts(t, cols);
    var ext := Extended(t, texts, compiled, m);
    FilterTableSpec(t, cols, compiled, m);
    forall i | 0 <= i < |ext| ensures !AnyFlagFrom(ext[i], |t.columns|) {
      assert ext[i] == t.rows[i] + Flags(texts[i], compiled, m);
      FlagsMatched(t.rows[i], texts[i], compiled, m);
    }
    FilterNone((row: seq<Cell>) => AnyFlagFrom(row, |t.columns|), ext);
    var out := FilterTable(t, cols, compiled, m).value;
    CorrectedStages(t, name, cols, techs, m, save, out);
  }

  /** The discrepancy: when no pattern matches any row, the script as
      written still returns every row, while the corrected one returns
      none. */
  lemma DropnaKeepsUnmatchedRows(t: Table, name: string, cols: seq<string>,
                                 techs: seq<TechTerm>, m: Matcher, save: Option<string>)
    requires WellFormed(t) && Combined !in t.columns && ColumnsPresent(t.columns, cols)
    requires FreshTechs(t, AddRegexPattern(techs)) && |techs| >= 1
    requires forall i :: 0 <= i < |t.rows| ==> !Matched(CombinedTexts(t, cols)[i], AddRegexPattern(techs), m)
    ensures var r := RunGdeltFilterAsWritten(t, Some(name), cols, techs, m, save);
            r.Success? && |r.value.table.rows| == |t.rows|
    ensures var r := RunGdeltFilter(t, Some(name), cols, techs, m, save);
            r.Success? && r.value.table.rows == []
  {
    AsWrittenKeepsEveryRow(t, name, cols, techs, m, save);
    CorrectedDropsUnmatched(t, name, cols, techs, m, save);
  }
}

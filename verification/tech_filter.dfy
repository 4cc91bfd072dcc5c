/** The tagging/filter pass of `scripts/tech_filter.py` and
    `scripts/gdelt_tech_filter.py`: concatenate the configured text columns
    into a temporary `combined_text` column, add one boolean column per
    technology telling whether its pattern matches that text, drop the
    temporary column, then select rows.

    Pattern matching (`str.contains` with a case-insensitive compiled
    pattern) is the `Matcher` parameter: `m(pattern, text)` says whether
    the pattern matches somewhere in the text. */
module TechFilter {
  import opened Wrappers
  import opened Strings
  import opened Seqs
  import opened Frames
  import opened KeywordRegex
  import opened Delivery

  type Matcher = (string, string) -> bool

  const Combined := "combined_text"

  datatype Format = Csv | Parquet

  // ---------------------------------------------------------------------
  // File names
  // ---------------------------------------------------------------------

  /** `input_filename.split('.')[1].lower()` must be `csv` or `parquet`;
      indexing a name without a dot raises IndexError, any other extension
      ValueError. */
  function InputFormat(fileName: string): (r: Result<Format>)
    ensures r.Failure? && r.error.kind == IndexError <==> '.' !in fileName
  {
    var pieces := Split(fileName, '.');
    if |pieces| < 2 then
      Failure(Error(IndexError, "list index out of range"))
    else
      assert fileName == pieces[0] + "." + Join(".", pieces[1..]);
      var ext := Lower(pieces[1]);
      if ext == "csv" then Success(Csv)
      else if ext == "parquet" then Success(Parquet)
      else Failure(Error(ValueError, "Input file must be a CSV or parquet"))
  }

  /** For a name made of dot-free components, the format is decided by the
      SECOND component alone (so `a.b.csv` is refused and `a.CSV.gz` is
      read as CSV). */
  lemma InputFormatOfComponents(parts: seq<string>)
    requires |parts| >= 2
    requires forall i :: 0 <= i < |parts| ==> '.' !in parts[i]
    ensures InputFormat(Join(".", parts)) ==
            if Lower(parts[1]) == "csv" then Success(Csv)
            else if Lower(parts[1]) == "parquet" then Success(Parquet)
            else Failure(Error(ValueError, "Input file must be a CSV or parquet"))
  {
    SplitJoin(parts, '.');
  }

  /** `input_filename.split('.')[0] + '_filtered.csv'`: the text before the
      first dot, then the fixed suffix. */
  function DefaultOutputName(fileName: string): (r: string)
    ensures exists k :: 0 <= k <= |fileName| && '.' !in fileName[..k] &&
              (k == |fileName| || fileName[k] == '.') && r == fileName[..k] + "_filtered.csv"
  {
    var pieces := Split(fileName, '.');
    var k := |pieces[0]|;
    FirstPieceIsPrefix(fileName, '.');
    pieces[0] + "_filtered.csv"
  }

  /** The first piece of a split is the text before the first separator. */
  lemma FirstPieceIsPrefix(s: string, c: char)
    ensures |Split(s, c)[0]| <= |s|
    ensures s[..|Split(s, c)[0]|] == Split(s, c)[0]
    ensures |Split(s, c)[0]| == |s| || s[|Split(s, c)[0]|] == c
  {
    var ps := Split(s, c);
    if |ps| == 1 {
      assert Join([c], ps) == ps[0];
    } else {
      assert Join([c], ps) == ps[0] + [c] + Join([c], ps[1..]);
    }
  }

  // ---------------------------------------------------------------------
  // Stage 1: the combined text column
  // ---------------------------------------------------------------------

  /** `" " + str(v)` for every value, concatenated: the text a row
      contributes after `combined_text` starts as `''`. */
  function Spaced(vals: seq<string>): string
    decreases |vals|
  {
    if |vals| == 0 then "" else " " + vals[0] + Spaced(vals[1..])
  }

  /** The combined text is a leading space followed by the values joined
      with single spaces. */
  lemma {:induction false} SpacedIsJoin(vals: seq<string>)
    requires |vals| >= 1
    ensures Spaced(vals) == " " + Join(" ", vals)
    decreases |vals|
  {
    if |vals| > 1 {
      SpacedIsJoin(vals[1..]);
    }
  }

  predicate ColumnsPresent(columns: seq<string>, cols: seq<string>) {
    forall i :: 0 <= i < |cols| ==> cols[i] in columns
  }

  /** The string values, as `astype(str)` renders them, of the named
      columns of one row. */
  function RenderedAt(row: seq<Cell>, columns: seq<string>, cols: seq<string>): (r: seq<string>)
    requires |row| == |columns| && ColumnsPresent(columns, cols)
    ensures |r| == |cols|
  {
    seq(|cols|, i requires 0 <= i < |cols| => Render(row[IndexOf(columns, cols[i])]))
  }

  /** Reference definition of a row's combined text. */
  function RowText(row: seq<Cell>, columns: seq<string>, cols: seq<string>): string
    requires |row| == |columns| && ColumnsPresent(columns, cols)
  {
    Spaced(RenderedAt(row, columns, cols))
  }

  /** The cells one combining pass assigns: the combined text so far
      (column `c`), a space and the rendered value of column `k`. */
  function StepVals(t: Table, c: nat, k: nat): (r: seq<Cell>)
    requires WellFormed(t) && c < |t.columns| && k < |t.columns|
    ensures |r| == |t.rows|
  {
    seq(|t.rows|, i requires 0 <= i < |t.rows| => Text(Render(t.rows[i][c]) + " " + Render(t.rows[i][k])))
  }

  /** One pass of `df['combined_text'] = df['combined_text'] + ' ' + df[col].astype(str)`
      per configured column; a column the table lacks raises KeyError. */
  function AppendColumns(t: Table, cols: seq<string>): (r: Result<Table>)
    requires WellFormed(t) && Combined in t.columns
    ensures r.Success? <==> ColumnsPresent(t.columns, cols)
    ensures r.Success? ==> WellFormed(r.value) && r.value.columns == t.columns && |r.value.rows| == |t.rows|
    decreases |cols|
  {
    if |cols| == 0 then Success(t)
    else
      var k := IndexOf(t.columns, cols[0]);
      if k == |t.columns| then Failure(Error(KeyError, cols[0]))
      else
        var r := AppendColumns(SetColumn(t, Combined, StepVals(t, IndexOf(t.columns, Combined), k)), cols[1..]);
        assert r.Success? <==> ColumnsPresent(t.columns, cols) by {
          if ColumnsPresent(t.columns, cols[1..]) {
            assert ColumnsPresent(t.columns, cols) by {
              forall i | 0 <= i < |cols| ensures cols[i] in t.columns {
                if i > 0 { assert cols[i] == cols[1..][i - 1]; }
              }
            }
          }
          if ColumnsPresent(t.columns, cols) {
            assert ColumnsPresent(t.columns, cols[1..]) by {
              forall i | 0 <= i < |cols[1..]| ensures cols[1..][i] in t.columns {
                assert cols[1..][i] == cols[i + 1];
              }
            }
          }
        }
        r
  }

  /** `df['combined_text'] = ''` followed by the per-column passes. */
  function CombineText(t: Table, cols: seq<string>): (r: Result<Table>)
    requires WellFormed(t)
    ensures r.Success? <==> ColumnsPresent(t.columns + (if Combined in t.columns then [] else [Combined]), cols)
    ensures r.Success? ==> WellFormed(r.value) && Combined in r.value.columns && |r.value.rows| == |t.rows|
    ensures r.Success? ==> forall c :: c in t.columns ==> c in r.value.columns
  {
    var start := SetColumn(t, Combined, seq(|t.rows|, _ => Text("")));
    AppendColumns(start, cols)
  }

  /** The table `base` with a combined-text column holding `texts`. */
  function WithCombined(base: Table, texts: seq<string>): (r: Table)
    requires |texts| == |base.rows|
    ensures WellFormed(base) && Combined !in base.columns ==>
              WellFormed(r) && IndexOf(r.columns, Combined) == |base.columns|
  {
    var cols := base.columns + [Combined];
    assert WellFormed(base) && Combined !in base.columns ==> NoDuplicates(cols) by {
      if WellFormed(base) && Combined !in base.columns {
        forall i, j | 0 <= i < j < |cols| ensures cols[i] != cols[j] {
          if j < |base.columns| {
            assert cols[i] == base.columns[i] && cols[j] == base.columns[j];
          } else {
            assert cols[i] == base.columns[i];
          }
        }
      }
    }
    Table(cols, seq(|base.rows|, i requires 0 <= i < |base.rows| => base.rows[i] + [Text(texts[i])]))
  }

  /** Each row's text followed by its reference combined text. */
  function Appended(base: Table, texts: seq<string>, cols: seq<string>): (r: seq<string>)
    requires WellFormed(base) && |texts| == |base.rows| && ColumnsPresent(base.columns, cols)
    ensures |r| == |base.rows|
  {
    seq(|base.rows|, i requires 0 <= i < |base.rows| => texts[i] + RowText(base.rows[i], base.columns, cols))
  }

  /** Each row's text extended by a space and its value in column `k`. */
  function ExtendTexts(base: Table, texts: seq<string>, k: nat): (r: seq<string>)
    requires WellFormed(base) && |texts| == |base.rows| && k < |base.columns|
    ensures |r| == |base.rows|
  {
    seq(|base.rows|, i requires 0 <= i < |base.rows| => texts[i] + " " + Render(base.rows[i][k]))
  }

  /** One pass over a fresh combined column extends every row's text. */
  lemma AppendOnce(base: Table, texts: seq<string>, name: string)
    requires WellFormed(base) && Combined !in base.columns && |texts| == |base.rows| && name in base.columns
    ensures var t := WithCombined(base, texts);
            var k := IndexOf(base.columns, name);
            && WellFormed(t)
            && IndexOf(t.columns, name) == k
            && IndexOf(t.columns, Combined) == |base.columns|
            && SetColumn(t, Combined, StepVals(t, |base.columns|, k)) == WithCombined(base, ExtendTexts(base, texts, k))
  {
    var t := WithCombined(base, texts);
    var k := IndexOf(base.columns, name);
    IndexOfPrefix(base.columns, [Combined], name);
    var c := |base.columns|;
    var vals := StepVals(t, c, k);
    var l := SetColumn(t, Combined, vals);
    var w := WithCombined(base, ExtendTexts(base, texts, k));
    forall i | 0 <= i < |base.rows| ensures l.rows[i] == w.rows[i] {
      assert t.rows[i] == base.rows[i] + [Text(texts[i])];
      assert l.rows[i] == t.rows[i][c := vals[i]];
    }
  }

  /** The reference text of a row starts with its first column's value. */
  lemma RowTextCons(row: seq<Cell>, columns: seq<string>, cols: seq<string>)
    requires |row| == |columns| && |cols| > 0 && ColumnsPresent(columns, cols)
    ensures ColumnsPresent(columns, cols[1..])
    ensures RowText(row, columns, cols) == " " + Render(row[IndexOf(columns, cols[0])]) + RowText(row, columns, cols[1..])
  {
    assert ColumnsPresent(columns, cols[1..]) by {
      forall i | 0 <= i < |cols[1..]| ensures cols[1..][i] in columns {
        assert cols[1..][i] == cols[i + 1];
      }
    }
    var rs := RenderedAt(row, columns, cols);
    assert rs[1..] == RenderedAt(row, columns, cols[1..]);
  }

  /** Extending by the first column and then appending the rest gives
      the reference text of all columns. */
  lemma AppendedCons(base: Table, texts: seq<string>, cols: seq<string>)
    requires WellFormed(base) && |texts| == |base.rows| && |cols| > 0 && ColumnsPresent(base.columns, cols)
    ensures ColumnsPresent(base.columns, cols[1..])
    ensures Appended(base, ExtendTexts(base, texts, IndexOf(base.columns, cols[0])), cols[1..]) == Appended(base, texts, cols)
  {
    var k := IndexOf(base.columns, cols[0]);
    RowTextCons(if |base.rows| > 0 then base.rows[0] else seq(|base.columns|, _ => Missing), base.columns, cols);
    var ext := ExtendTexts(base, texts, k);
    var l := Appended(base, ext, cols[1..]);
    var r := Appended(base, texts, cols);
    forall i | 0 <= i < |base.rows| ensures l[i] == r[i] {
      RowTextCons(base.rows[i], base.columns, cols);
    }
  }

  /** Combining into a fresh column: each row's combined text is its
      starting text followed by the reference text of the columns. */
  lemma {:induction false} AppendColumnsFresh(base: Table, texts: seq<string>, cols: seq<string>)
    requires WellFormed(base) && Combined !in base.columns && |texts| == |base.rows| && ColumnsPresent(base.columns, cols)
    ensures AppendColumns(WithCombined(base, texts), cols) == Success(WithCombined(base, Appended(base, texts, cols)))
    decreases |cols|
  {
    if |cols| == 0 {
      var r := Appended(base, texts, cols);
      forall i | 0 <= i < |base.rows| ensures r[i] == texts[i] {
        assert RowText(base.rows[i], base.columns, cols) == "";
      }
      assert r == texts;
    } else {
      var k := IndexOf(base.columns, cols[0]);
      AppendOnce(base, texts, cols[0]);
      AppendedCons(base, texts, cols);
      AppendColumnsFresh(base, ExtendTexts(base, texts, k), cols[1..]);
    }
  }

  lemma IndexOfPrefix(xs: seq<string>, ys: seq<string>, name: string)
    requires name in xs
    ensures IndexOf(xs + ys, name) == IndexOf(xs, name)
  {
    if xs[0] != name {
      assert (xs + ys)[1..] == xs[1..] + ys;
      IndexOfPrefix(xs[1..], ys, name);
    }
  }

  /** With `combined_text` fresh, the combining stage appends one column
      holding every row's reference text. */
  lemma CombineTextFresh(t: Table, cols: seq<string>)
    requires WellFormed(t) && Combined !in t.columns && ColumnsPresent(t.columns, cols)
    ensures CombineText(t, cols) == Success(WithCombined(t, CombinedTexts(t, cols)))
  {
    var empties := seq(|t.rows|, _ => "");
    var start := SetColumn(t, Combined, seq(|t.rows|, _ => Text("")));
    assert start == WithCombined(t, empties) by {
      var w := WithCombined(t, empties);
      assert start.columns == w.columns;
      forall i | 0 <= i < |t.rows| ensures start.rows[i] == w.rows[i] {
        assert start.rows[i] == t.rows[i] + [Text("")];
      }
    }
    AppendColumnsFresh(t, empties, cols);
    var got := Appended(t, empties, cols);
    assert got == CombinedTexts(t, cols) by {
      forall i | 0 <= i < |t.rows| ensures got[i] == CombinedTexts(t, cols)[i] {
        assert empties[i] == "";
      }
    }
  }

  function CombinedTexts(t: Table, cols: seq<string>): (r: seq<string>)
    requires WellFormed(t) && ColumnsPresent(t.columns, cols)
    ensures |r| == |t.rows|
  {
    seq(|t.rows|, i requires 0 <= i < |t.rows| => RowText(t.rows[i], t.columns, cols))
  }

  // ---------------------------------------------------------------------
  // Stage 2: one boolean column per technology
  // ---------------------------------------------------------------------

  /** `Series.str.contains(pattern, na=False)` on one cell: a missing value
      counts as no match. */
  predicate MatchCell(m: Matcher, pattern: string, c: Cell) {
    match c
    case Text(s) => m(pattern, s)
    case _ => false
  }

  function Names(techs: seq<CompiledTech>): (r: seq<string>)
    ensures |r| == |techs|
    ensures forall i :: 0 <= i < |techs| ==> r[i] == techs[i].tech
  {
    Map((c: CompiledTech) => c.tech, techs)
  }

  /** The flag cells a text earns, one per technology in order. */
  function Flags(text: string, techs: seq<CompiledTech>, m: Matcher): (r: seq<Cell>)
    ensures |r| == |techs|
    ensures forall j :: 0 <= j < |techs| ==> r[j] == Flag(m(techs[j].regex, text))
  {
    Map((c: CompiledTech) => Flag(m(c.regex, text)), techs)
  }

  /** The flags one tagging pass assigns: whether the pattern matches the
      text in column `c`. */
  function TagVals(t: Table, c: nat, regex: string, m: Matcher): (r: seq<Cell>)
    requires WellFormed(t) && c < |t.columns|
    ensures |r| == |t.rows|
  {
    seq(|t.rows|, i requires 0 <= i < |t.rows| => Flag(MatchCell(m, regex, t.rows[i][c])))
  }

  /** `df[tech['tech']] = df['combined_text'].str.contains(tech['regex'], na=False)`
      for every technology in turn. A later technology with the name of an
      existing column overwrites it. */
  function TagColumns(t: Table, techs: seq<CompiledTech>, m: Matcher): (r: Table)
    requires WellFormed(t) && Combined in t.columns
    ensures WellFormed(r) && |r.rows| == |t.rows|
    ensures forall c :: c in t.columns ==> c in r.columns
    ensures forall j :: 0 <= j < |techs| ==> techs[j].tech in r.columns
    decreases |techs|
  {
    if |techs| == 0 then t
    else
      var r := TagColumns(SetColumn(t, techs[0].tech, TagVals(t, IndexOf(t.columns, Combined), techs[0].regex, m)), techs[1..], m);
      assert forall j :: 1 <= j < |techs| ==> techs[j] == techs[1..][j - 1];
      r
  }

  /** Technology names that are distinct and clash neither with the
      table's columns nor with `combined_text`. */
  predicate FreshTechs(base: Table, techs: seq<CompiledTech>) {
    NoDuplicates(base.columns + [Combined] + Names(techs))
  }

  /** Reference definition: `base` with its combined texts and the flags of
      the technologies `done`, each in a new column. */
  function Tagged(base: Table, texts: seq<string>, done: seq<CompiledTech>, m: Matcher): Table
    requires |texts| == |base.rows|
  {
    Table(base.columns + [Combined] + Names(done),
          seq(|base.rows|, i requires 0 <= i < |base.rows| => base.rows[i] + [Text(texts[i])] + Flags(texts[i], done, m)))
  }

  lemma TaggedWellFormed(base: Table, texts: seq<string>, done: seq<CompiledTech>, m: Matcher)
    requires WellFormed(base) && |texts| == |base.rows| && FreshTechs(base, done)
    ensures WellFormed(Tagged(base, texts, done, m))
    ensures IndexOf(Tagged(base, texts, done, m).columns, Combined) == |base.columns|
  {
    var cols := base.columns + [Combined] + Names(done);
    assert cols[|base.columns|] == Combined;
    IndexOfUnique(cols, |base.columns|);
  }

  /** Extending a duplicate-free name list keeps its prefixes duplicate-free. */
  lemma FreshTechsPrefix(base: Table, done: seq<CompiledTech>, todo: seq<CompiledTech>)
    requires FreshTechs(base, done + todo)
    ensures FreshTechs(base, done)
  {
    var all := base.columns + [Combined] + Names(done + todo);
    assert Names(done + todo) == Names(done) + Names(todo);
    assert base.columns + [Combined] + Names(done) == all[..|base.columns| + 1 + |done|];
    NoDuplicatesPrefix(all, |base.columns| + 1 + |done|);
  }

  /** A fresh technology name is not yet a column of the tagged table. */
  lemma FreshName(base: Table, done: seq<CompiledTech>, tech: CompiledTech)
    requires FreshTechs(base, done + [tech])
    ensures tech.tech !in base.columns + [Combined] + Names(done)
  {
    var cols := base.columns + [Combined] + Names(done);
    var all := base.columns + [Combined] + Names(done + [tech]);
    assert Names(done + [tech]) == Names(done) + [tech.tech];
    assert all == cols + [tech.tech];
    forall j | 0 <= j < |cols| ensures cols[j] != tech.tech {
      assert cols[j] == all[j] && all[|cols|] == tech.tech;
    }
  }

  /** Appending a technology's flags to the tagged rows gives the rows
      tagged with it. */
  lemma TagRows(base: Table, texts: seq<string>, done: seq<CompiledTech>, tech: CompiledTech, m: Matcher)
    requires WellFormed(base) && |texts| == |base.rows| && FreshTechs(base, done)
    ensures WellFormed(Tagged(base, texts, done, m))
    ensures var t := Tagged(base, texts, done, m);
            var vals := TagVals(t, |base.columns|, tech.regex, m);
            forall i :: 0 <= i < |base.rows| ==> t.rows[i] + [vals[i]] == Tagged(base, texts, done + [tech], m).rows[i]
  {
    TaggedWellFormed(base, texts, done, m);
    var t := Tagged(base, texts, done, m);
    var vals := TagVals(t, |base.columns|, tech.regex, m);
    var w := Tagged(base, texts, done + [tech], m);
    forall i | 0 <= i < |base.rows| ensures t.rows[i] + [vals[i]] == w.rows[i] {
      assert t.rows[i][|base.columns|] == Text(texts[i]);
      assert Flags(texts[i], done + [tech], m) == Flags(texts[i], done, m) + [vals[i]];
    }
  }

  /** One tagging pass on a fresh name appends that technology's flags. */
  lemma TagStep(base: Table, texts: seq<string>, done: seq<CompiledTech>, tech: CompiledTech, m: Matcher)
    requires WellFormed(base) && |texts| == |base.rows| && FreshTechs(base, done + [tech])
    ensures FreshTechs(base, done) && WellFormed(Tagged(base, texts, done, m))
    ensures TagColumns(Tagged(base, texts, done, m), [tech], m) == Tagged(base, texts, done + [tech], m)
  {
    FreshTechsPrefix(base, done, [tech]);
    TaggedWellFormed(base, texts, done, m);
    FreshName(base, done, tech);
    TagRows(base, texts, done, tech, m);
    var t := Tagged(base, texts, done, m);
    var vals := TagVals(t, |base.columns|, tech.regex, m);
    SetColumnAppends(t, tech.tech, vals);
    var l := SetColumn(t, tech.tech, vals);
    var w := Tagged(base, texts, done + [tech], m);
    assert Names(done + [tech]) == Names(done) + [tech.tech];
    assert l.columns == w.columns;
    assert l.rows == w.rows;
    assert TagColumns(l, [], m) == l;
  }

  /** With fresh names, the tagging pass appends one flag column per
      technology, in order, holding whether its pattern matches the row's
      combined text. */
  lemma {:induction false} TagColumnsFresh(base: Table, texts: seq<string>, done: seq<CompiledTech>, todo: seq<CompiledTech>, m: Matcher)
    requires WellFormed(base) && |texts| == |base.rows| && FreshTechs(base, done + todo)
    ensures FreshTechs(base, done) && WellFormed(Tagged(base, texts, done, m))
    ensures TagColumns(Tagged(base, texts, done, m), todo, m) == Tagged(base, texts, done + todo, m)
    decreases |todo|
  {
    FreshTechsPrefix(base, done, todo);
    TaggedWellFormed(base, texts, done, m);
    if |todo| == 0 {
      assert done + todo == done;
    } else {
      var next := done + [todo[0]];
      assert next + todo[1..] == done + todo;
      FreshTechsPrefix(base, next, todo[1..]);
      TagStep(base, texts, done, todo[0], m);
      TagColumnsFresh(base, texts, next, todo[1..], m);
    }
  }

  // ---------------------------------------------------------------------
  // Stage 3: row selection
  // ---------------------------------------------------------------------

  /** Whether some named column of `row` holds a cell passing `test`. */
  predicate AnyNamed(row: seq<Cell>, columns: seq<string>, names: seq<string>, test: Cell -> bool) {
    exists j :: 0 <= j < |names| && IndexOf(columns, names[j]) < |row| && test(row[IndexOf(columns, names[j])])
  }

  /** Keeps, in order, the rows in which some named column passes `test`;
      a name the table lacks raises KeyError. Both
      `df[df[cols].any(axis='columns')]` and `dropna(how='all', subset=cols)`
      have this shape. */
  function SelectRows(t: Table, names: seq<string>, test: Cell -> bool): (r: Result<Table>)
    requires WellFormed(t)
    ensures r.Success? <==> ColumnsPresent(t.columns, names)
    ensures r.Success? ==> WellFormed(r.value) && r.value.columns == t.columns
    ensures r.Success? ==> forall i :: 0 <= i < |r.value.rows| ==> r.value.rows[i] in t.rows
    ensures r.Success? ==> forall i :: 0 <= i < |r.value.rows| ==> AnyNamed(r.value.rows[i], t.columns, names, test)
    ensures r.Success? ==> forall i :: 0 <= i < |t.rows| ==>
              (t.rows[i] in r.value.rows <==> AnyNamed(t.rows[i], t.columns, names, test))
  {
    var missing := FirstAbsent(t.columns, names);
    if missing < |names| then
      Failure(Error(KeyError, names[missing]))
    else
      Success(Table(t.columns, Filter((row: seq<Cell>) => AnyNamed(row, t.columns, names, test), t.rows)))
  }

  /** Position of the first name `columns` lacks, or `|names|`. */
  function FirstAbsent(columns: seq<string>, names: seq<string>): (k: nat)
    ensures k <= |names|
    ensures k == |names| <==> ColumnsPresent(columns, names)
    ensures k < |names| ==> names[k] !in columns
  {
    if |names| == 0 then 0
    else if names[0] !in columns then 0
    else
      var k := 1 + FirstAbsent(columns, names[1..]);
      assert forall j :: 1 <= j < |names| ==> names[j] == names[1..][j - 1];
      k
  }

  /** `DataFrame.any` over the flag columns: the row has a true cell. */
  function SelectAny(t: Table, names: seq<string>): (r: Result<Table>)
    requires WellFormed(t)
    ensures r.Success? <==> ColumnsPresent(t.columns, names)
    ensures r.Success? ==> WellFormed(r.value) && r.value.columns == t.columns
    ensures r.Success? ==> forall i :: 0 <= i < |t.rows| ==>
              (t.rows[i] in r.value.rows <==> exists j :: 0 <= j < |names| && Truthy(t.rows[i][IndexOf(t.columns, names[j])]))
  {
    SelectRows(t, names, Truthy)
  }

  // ---------------------------------------------------------------------
  // The whole script
  // ---------------------------------------------------------------------

  /** Stages 1 and 2: the combined text, then one flag column per
      technology. */
  function TagTable(t: Table, cols: seq<string>, techs: seq<CompiledTech>, m: Matcher): (r: Result<Table>)
    requires WellFormed(t)
    ensures r.Success? <==> ColumnsPresent(t.columns + (if Combined in t.columns then [] else [Combined]), cols)
    ensures r.Success? ==> WellFormed(r.value) && Combined in r.value.columns && |r.value.rows| == |t.rows|
    ensures r.Success? ==> forall c :: c in t.columns ==> c in r.value.columns
    ensures r.Success? ==> forall j :: 0 <= j < |techs| ==> techs[j].tech in r.value.columns
  {
    var combined :- CombineText(t, cols);
    Success(TagColumns(combined, techs, m))
  }

  /** The three stages of `tech_filter.py`: tag, drop `combined_text`, keep
      the rows with a true flag. */
  function FilterTable(t: Table, cols: seq<string>, techs: seq<CompiledTech>, m: Matcher): (r: Result<Table>)
    requires WellFormed(t)
    ensures !ColumnsPresent(t.columns + (if Combined in t.columns then [] else [Combined]), cols) ==> r.Failure?
    ensures r.Success? ==> WellFormed(r.value) && Combined !in r.value.columns && |r.value.rows| <= |t.rows|
    ensures r.Success? ==> forall c :: c in t.columns && c != Combined ==> c in r.value.columns
  {
    var tagged :- TagTable(t, cols, techs, m);
    // `combined_text` is still present, so dropping it cannot fail
    var dropped := DropColumn(tagged, Combined).value;
    SelectAny(dropped, Names(techs))
  }

  datatype FilterOutput = FilterOutput(table: Table, outputName: string, actions: seq<Action>)

  /** `main` of `tech_filter.py` after the input file has been read into
      `t`: the extension check, the three stages, the default output name
      and the save dispatch. `outputDir` stands for the configured
      filtered-data folder and subfolder. */
  function RunTechFilter(t: Table, inputName: string, outputName: Option<string>, outputDir: string,
                         cols: seq<string>, techs: seq<TechTerm>, m: Matcher, save: Option<string>): (r: Result<FilterOutput>)
    requires WellFormed(t)
    ensures InputFormat(inputName).Failure? ==> r == Failure(InputFormat(inputName).error)
    ensures r.Success? ==> '.' in inputName
    ensures r.Success? ==> ColumnsPresent(t.columns + (if Combined in t.columns then [] else [Combined]), cols)
    ensures r.Success? && outputName.Some? ==> r.value.outputName == outputName.value
    ensures r.Success? && outputName.None? ==>
              exists k :: 0 <= k <= |inputName| && '.' !in inputName[..k] &&
                r.value.outputName == inputName[..k] + "_filtered.csv"
    ensures r.Success? ==> (Upload(outputDir + "/" + r.value.outputName) in r.value.actions <==> save == Some("gdrive"))
    ensures r.Success? ==> |r.value.table.rows| <= |t.rows|
  {
    var fmt :- InputFormat(inputName);
    var selected :- FilterTable(t, cols, AddRegexPattern(techs), m);
    var name := if outputName.Some? then outputName.value else DefaultOutputName(inputName);
    Success(FilterOutput(selected, name, SaveActions(save, outputDir + "/" + name)))
  }

  // ---------------------------------------------------------------------
  // What the script computes, stated without its stages
  // ---------------------------------------------------------------------

  /** Some technology's pattern matches the text. */
  predicate Matched(text: string, techs: seq<CompiledTech>, m: Matcher) {
    exists j :: 0 <= j < |techs| && m(techs[j].regex, text)
  }

  /** Some cell from position `start` on is a true flag. */
  predicate AnyFlagFrom(row: seq<Cell>, start: nat) {
    exists k :: start <= k < |row| && row[k] == Flag(true)
  }

  /** Every input row followed by its flags. */
  function Extended(base: Table, texts: seq<string>, techs: seq<CompiledTech>, m: Matcher): (r: seq<seq<Cell>>)
    requires |texts| == |base.rows|
    ensures |r| == |base.rows|
  {
    seq(|base.rows|, i requires 0 <= i < |base.rows| => base.rows[i] + Flags(texts[i], techs, m))
  }

  lemma WithCombinedIsTagged(base: Table, texts: seq<string>, m: Matcher)
    requires |texts| == |base.rows|
    ensures WithCombined(base, texts) == Tagged(base, texts, [], m)
  {
    var w := WithCombined(base, texts);
    var g := Tagged(base, texts, [], m);
    assert w.columns == g.columns;
    forall i | 0 <= i < |base.rows| ensures w.rows[i] == g.rows[i] {
      assert Flags(texts[i], [], m) == [];
    }
  }

  /** Dropping `combined_text` from the fully tagged table leaves the input
      columns followed by the flag columns. */
  lemma DropCombinedTagged(base: Table, texts: seq<string>, techs: seq<CompiledTech>, m: Matcher)
    requires WellFormed(base) && |texts| == |base.rows| && FreshTechs(base, techs)
    ensures WellFormed(Tagged(base, texts, techs, m))
    ensures DropColumn(Tagged(base, texts, techs, m), Combined) ==
            Success(Table(base.columns + Names(techs), Extended(base, texts, techs, m)))
  {
    TaggedWellFormed(base, texts, techs, m);
    var t := Tagged(base, texts, techs, m);
    var k := |base.columns|;
    assert IndexOf(t.columns, Combined) == k;
    RemoveAtMiddle(base.columns, Combined, Names(techs));
    var rows := seq(|t.rows|, i requires 0 <= i < |t.rows| => RemoveAt(t.rows[i], k));
    forall i | 0 <= i < |base.rows|
      ensures rows[i] == Extended(base, texts, techs, m)[i]
    {
      RemoveAtMiddle(base.rows[i], Text(texts[i]), Flags(texts[i], techs, m));
    }
    assert rows == Extended(base, texts, techs, m);
  }

  /** In the table without `combined_text`, technology `j` sits right
      after the input columns, at position `|base.columns| + j`. */
  lemma FlagPosition(base: Table, techs: seq<CompiledTech>, j: nat)
    requires FreshTechs(base, techs) && j < |techs|
    ensures IndexOf(base.columns + Names(techs), Names(techs)[j]) == |base.columns| + j
  {
    var cols := base.columns + Names(techs);
    NoDuplicatesRemove(base.columns, Combined, Names(techs));
    assert cols[|base.columns| + j] == Names(techs)[j];
    IndexOfUnique(cols, |base.columns| + j);
  }

  /** A true flag after the input cells is a matching pattern. */
  lemma FlagsMatched(row: seq<Cell>, text: string, techs: seq<CompiledTech>, m: Matcher)
    ensures AnyFlagFrom(row + Flags(text, techs, m), |row|) == Matched(text, techs, m)
  {
    var e := row + Flags(text, techs, m);
    if AnyFlagFrom(e, |row|) {
      var k :| |row| <= k < |e| && e[k] == Flag(true);
      assert e[k] == Flags(text, techs, m)[k - |row|];
    }
    if Matched(text, techs, m) {
      var j :| 0 <= j < |techs| && m(techs[j].regex, text);
      assert e[|row| + j] == Flag(true);
    }
  }

  /** A true cell in some flag column is a true flag after the input cells. */
  lemma FlagsNamed(base: Table, row: seq<Cell>, text: string, techs: seq<CompiledTech>, m: Matcher)
    requires FreshTechs(base, techs) && |row| == |base.columns|
    ensures AnyNamed(row + Flags(text, techs, m), base.columns + Names(techs), Names(techs), Truthy)
            == AnyFlagFrom(row + Flags(text, techs, m), |row|)
  {
    var e := row + Flags(text, techs, m);
    var cols := base.columns + Names(techs);
    var names := Names(techs);
    if AnyFlagFrom(e, |row|) {
      var k :| |row| <= k < |e| && e[k] == Flag(true);
      var j := k - |row|;
      FlagPosition(base, techs, j);
      assert IndexOf(cols, names[j]) < |e| && Truthy(e[IndexOf(cols, names[j])]);
    }
    if AnyNamed(e, cols, names, Truthy) {
      var j :| 0 <= j < |names| && IndexOf(cols, names[j]) < |e| && Truthy(e[IndexOf(cols, names[j])]);
      FlagPosition(base, techs, j);
      assert e[|row| + j] == Flags(text, techs, m)[j];
    }
  }

  /** With `combined_text` and the technology names fresh, stages 1 and 2
      append the combined text and the flags to every row. */
  lemma TagTableFresh(t: Table, cols: seq<string>, techs: seq<CompiledTech>, m: Matcher)
    requires WellFormed(t) && Combined !in t.columns && ColumnsPresent(t.columns, cols)
    requires FreshTechs(t, techs)
    ensures TagTable(t, cols, techs, m) == Success(Tagged(t, CombinedTexts(t, cols), techs, m))
  {
    var texts := CombinedTexts(t, cols);
    CombineTextFresh(t, cols);
    WithCombinedIsTagged(t, texts, m);
    assert [] + techs == techs;
    TagColumnsFresh(t, texts, [], techs, m);
  }

  /** The filtered table, for present text columns and fresh technology
      names: the input columns followed by one flag column per technology,
      and exactly the input rows whose combined text some pattern matches,
      in their original order. */
  lemma FilterTableSpec(t: Table, cols: seq<string>, techs: seq<CompiledTech>, m: Matcher)
    requires WellFormed(t) && Combined !in t.columns && ColumnsPresent(t.columns, cols)
    requires FreshTechs(t, techs)
    ensures var r := FilterTable(t, cols, techs, m);
            var ext := Extended(t, CombinedTexts(t, cols), techs, m);
            && r.Success?
            && r.value.columns == t.columns + Names(techs)
            && r.value.rows == Filter((row: seq<Cell>) => AnyFlagFrom(row, |t.columns|), ext)
            && forall i :: 0 <= i < |t.rows| ==>
                 (ext[i] in r.value.rows <==> Matched(CombinedTexts(t, cols)[i], techs, m))
  {
    var texts := CombinedTexts(t, cols);
    var ext := Extended(t, texts, techs, m);
    TagTableFresh(t, cols, techs, m);
    DropCombinedTagged(t, texts, techs, m);
    var dropped := Table(t.columns + Names(techs), ext);
    var names := Names(techs);
    assert ColumnsPresent(dropped.columns, names);
    forall i | 0 <= i < |ext|
      ensures AnyNamed(ext[i], dropped.columns, names, Truthy) == AnyFlagFrom(ext[i], |t.columns|)
      ensures AnyFlagFrom(ext[i], |t.columns|) == Matched(texts[i], techs, m)
    {
      assert ext[i] == t.rows[i] + Flags(texts[i], techs, m);
      FlagsNamed(t, t.rows[i], texts[i], techs, m);
      FlagsMatched(t.rows[i], texts[i], techs, m);
    }
    FilterCongruence((row: seq<Cell>) => AnyNamed(row, dropped.columns, names, Truthy),
                     (row: seq<Cell>) => AnyFlagFrom(row, |t.columns|), ext);
    var kept := Filter((row: seq<Cell>) => AnyFlagFrom(row, |t.columns|), ext);
    forall i | 0 <= i < |t.rows| ensures ext[i] in kept <==> Matched(texts[i], techs, m) {
      if ext[i] in kept {
        var k :| 0 <= k < |kept| && kept[k] == ext[i];
      }
    }
  }

  /** The output of `tech_filter.py` for a readable input file: the
      filtered table above, under the given or the default name. */
  lemma TechFilterSpec(t: Table, inputName: string, outputName: Option<string>, outputDir: string,
                       cols: seq<string>, techs: seq<TechTerm>, m: Matcher, save: Option<string>)
    requires WellFormed(t) && InputFormat(inputName).Success?
    requires Combined !in t.columns && ColumnsPresent(t.columns, cols)
    requires FreshTechs(t, AddRegexPattern(techs))
    ensures var r := RunTechFilter(t, inputName, outputName, outputDir, cols, techs, m, save);
            var compiled := AddRegexPattern(techs);
            var ext := Extended(t, CombinedTexts(t, cols), compiled, m);
            && r.Success?
            && r.value.table.columns == t.columns + Names(compiled)
            && r.value.outputName == (if outputName.Some? then outputName.value else DefaultOutputName(inputName))
            && r.value.table.rows == Filter((row: seq<Cell>) => AnyFlagFrom(row, |t.columns|), ext)
            && forall i :: 0 <= i < |t.rows| ==>
                 (ext[i] in r.value.table.rows <==> Matched(CombinedTexts(t, cols)[i], compiled, m))
  {
    FilterTableSpec(t, cols, AddRegexPattern(techs), m);
  }
}

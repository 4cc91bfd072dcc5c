/** `journal_cleaning.py` and `extract_author_info` of `src/author_info.py`:
    the `data` records of every new raw journal file are combined, their
    publication dates reformatted, the author list replaced by the last
    author's name, institution and country, the list-valued columns joined
    into text, and the result saved under a name built from the earliest
    and latest dates. Reading the files and parsing dates are given:
    `read` maps a path to its records and `reformat` maps a date string to
    its `%y-%m-%d` rendering, `None` when pandas cannot parse it. */
module JournalCleaning {
  import opened Wrappers
  import opened Strings
  import opened Seqs
  import opened Delivery
  import opened Ledger

  // ---------------------------------------------------------------------
  // Records

  datatype Affiliation = Affiliation(name: Option<string>, countryCode: Option<string>)

  /** One entry of `authors`; each key may be absent. */
  datatype Author = Author(firstName: Option<string>, lastName: Option<string>, affiliations: Option<seq<Affiliation>>)

  /** A cell of `authors`: a list, or anything else (a missing value). */
  datatype AuthorsCell = AuthorList(authors: seq<Author>) | NotAuthorList

  /** A cell of `fields_of_study` or `keywords`. */
  datatype ListCell = StringList(items: seq<string>) | NotAList

  /** One record of a file's `data` list; `None` where the record lacks the
      key, which the combined frame shows as a missing value. */
  datatype Journal = Journal(
    lensId: Option<string>,
    title: Option<string>,
    summary: Option<string>,
    datePublished: Option<string>,
    authors: Option<AuthorsCell>,
    fieldsOfStudy: Option<ListCell>,
    keywords: Option<ListCell>)

  /** A row of the saved CSV: `authors` is gone and `author`,
      `institution` and `country` are appended. */
  datatype CleanRow = CleanRow(
    lensId: Option<string>,
    title: Option<string>,
    summary: Option<string>,
    datePublished: Option<string>,
    fieldsOfStudy: string,
    keywords: string,
    author: string,
    institution: string,
    country: string)

  // ---------------------------------------------------------------------
  // `extract_author_info`

  /** The cell holds a non-empty list whose last author has a non-empty
      affiliation list. */
  predicate HasAffiliatedLast(cell: Option<AuthorsCell>) {
    && cell.Some? && cell.value.AuthorList? && |cell.value.authors| > 0
    && var a := Last(cell.value.authors);
       a.affiliations.Some? && |a.affiliations.value| > 0
  }

  /** `f"{first_name} {last_name}"` with `NA` for a missing key. */
  function FullName(a: Author): string {
    a.firstName.GetOr("NA") + " " + a.lastName.GetOr("NA")
  }

  /** `extract_author_info(row)`: the last author's full name and the name
      and country code of that author's first affiliation (`NA` for a
      missing key), or three empty strings when there is no such
      affiliation. */
  function ExtractAuthorInfo(cell: Option<AuthorsCell>): (r: (string, string, string))
    ensures r.0 == "" <==> !HasAffiliatedLast(cell)
    ensures !HasAffiliatedLast(cell) ==> r == ("", "", "")
    ensures HasAffiliatedLast(cell) ==>
              var a := Last(cell.value.authors);
              var first := a.affiliations.value[0];
              r == (FullName(a), first.name.GetOr("NA"), first.countryCode.GetOr("NA"))
  {
    if cell.Some? && cell.value.AuthorList? && |cell.value.authors| > 0 then
      var a := cell.value.authors[|cell.value.authors| - 1];
      var affiliations := a.affiliations.GetOr([]);
      if |affiliations| > 0 then
        assert FullName(a)[|a.firstName.GetOr("NA")|] == ' ';
        (FullName(a), affiliations[0].name.GetOr("NA"), affiliations[0].countryCode.GetOr("NA"))
      else ("", "", "")
    else ("", "", "")
  }

  /** Only the last author counts: the authors before it change nothing. */
  lemma OnlyLastAuthor(earlier: seq<Author>, a: Author)
    ensures ExtractAuthorInfo(Some(AuthorList(earlier + [a]))) == ExtractAuthorInfo(Some(AuthorList([a])))
  {
    assert Last(earlier + [a]) == a;
  }

  /** An author name without spaces comes back from the `author` column by
      splitting at the space. */
  lemma AuthorNameSplits(a: Author)
    requires ' ' !in a.firstName.GetOr("NA") && ' ' !in a.lastName.GetOr("NA")
    ensures Split(FullName(a), ' ') == [a.firstName.GetOr("NA"), a.lastName.GetOr("NA")]
  {
    SplitAtFirst(a.firstName.GetOr("NA"), ' ', a.lastName.GetOr("NA"));
    SplitNoSeparator(a.lastName.GetOr("NA"), ' ');
  }

  // ---------------------------------------------------------------------
  // List columns

  /** `', '.join(x) if isinstance(x, list) else ''`. */
  function JoinCell(cell: Option<ListCell>): (r: string)
    ensures !(cell.Some? && cell.value.StringList?) ==> r == ""
  {
    if cell.Some? && cell.value.StringList? then Join(", ", cell.value.items) else ""
  }

  /** Items free of commas are recovered from the joined text by splitting
      at the commas: the first as it was, the others behind the space the
      separator adds. */
  lemma {:induction false} JoinCellSplits(items: seq<string>)
    requires |items| > 0
    requires forall i :: 0 <= i < |items| ==> ',' !in items[i]
    ensures Split(JoinCell(Some(StringList(items))), ',') == [items[0]] + Map((x: string) => " " + x, items[1..])
  {
    var parts := [items[0]] + Map((x: string) => " " + x, items[1..]);
    CommaSpaceJoin(items);
    forall i | 0 <= i < |parts| ensures ',' !in parts[i] {
      if i > 0 {
        assert parts[i] == " " + items[i];
      }
    }
    SplitJoin(parts, ',');
  }

  /** `", ".join(items)` is `",".join` of the items with a space put in
      front of all but the first. */
  lemma {:induction false} CommaSpaceJoin(items: seq<string>)
    requires |items| > 0
    ensures Join(", ", items) == Join([','], [items[0]] + Map((x: string) => " " + x, items[1..]))
    decreases |items|
  {
    if |items| > 1 {
      var tail := Map((x: string) => " " + x, items[2..]);
      CommaSpaceJoin(items[1..]);
      assert Map((x: string) => " " + x, items[1..]) == [" " + items[1]] + tail;
      JoinConsFirst([','], " ", items[1], tail);
      var parts := [items[0]] + Map((x: string) => " " + x, items[1..]);
      assert parts[1..] == [" " + items[1]] + tail;
      assert [items[1]] + Map((x: string) => " " + x, items[1..][1..]) == [items[1]] + tail;
    }
  }

  // ---------------------------------------------------------------------
  // Combining and cleaning

  /** The records of the files, file after file. */
  function Records(files: seq<string>, read: string -> seq<Journal>): (r: seq<Journal>)
    ensures |r| == SumOf((f: string) => |read(f)|, files)
    decreases |files|
  {
    if |files| == 0 then [] else read(files[0]) + Records(files[1..], read)
  }

  /** Every record of every file, in file order: the files' records laid
      end to end. */
  lemma {:induction false} RecordsAppend(a: seq<string>, b: seq<string>, read: string -> seq<Journal>)
    ensures Records(a + b, read) == Records(a, read) + Records(b, read)
    decreases |a|
  {
    if |a| == 0 {
      assert a + b == b;
    } else {
      assert (a + b)[0] == a[0] && (a + b)[1..] == a[1..] + b;
      RecordsAppend(a[1..], b, read);
    }
  }

  /** One cleaned row: identifiers and text pass through, a present date is
      reformatted and a missing one stays missing, the list cells are
      joined and the author columns come from the last author. */
  function CleanRecord(j: Journal, reformat: string -> Option<string>): (r: CleanRow)
    ensures r.lensId == j.lensId && r.title == j.title && r.summary == j.summary
    ensures r.datePublished.Some? ==> j.datePublished.Some? && reformat(j.datePublished.value) == r.datePublished
    ensures j.datePublished.None? ==> r.datePublished.None?
    ensures !(j.fieldsOfStudy.Some? && j.fieldsOfStudy.value.StringList?) ==> r.fieldsOfStudy == ""
    ensures !(j.keywords.Some? && j.keywords.value.StringList?) ==> r.keywords == ""
    ensures r.author == "" <==> !HasAffiliatedLast(j.authors)
    ensures !HasAffiliatedLast(j.authors) ==> r.institution == "" && r.country == ""
  {
    var info := ExtractAuthorInfo(j.authors);
    CleanRow(
      j.lensId, j.title, j.summary,
      if j.datePublished.Some? then reformat(j.datePublished.value) else None,
      JoinCell(j.fieldsOfStudy), JoinCell(j.keywords),
      info.0, info.1, info.2)
  }

  /** The columns `clean_journal` indexes; a column no record carries is
      missing from the combined frame. */
  predicate HasDates(records: seq<Journal>) { exists i :: 0 <= i < |records| && records[i].datePublished.Some? }
  predicate HasAuthors(records: seq<Journal>) { exists i :: 0 <= i < |records| && records[i].authors.Some? }
  predicate HasFields(records: seq<Journal>) { exists i :: 0 <= i < |records| && records[i].fieldsOfStudy.Some? }
  predicate HasKeywords(records: seq<Journal>) { exists i :: 0 <= i < |records| && records[i].keywords.Some? }

  predicate AllColumns(records: seq<Journal>) {
    HasDates(records) && HasAuthors(records) && HasFields(records) && HasKeywords(records)
  }

  /** Every date present parses. */
  predicate DatesParse(records: seq<Journal>, reformat: string -> Option<string>) {
    forall i :: 0 <= i < |records| && records[i].datePublished.Some? ==> reformat(records[i].datePublished.value).Some?
  }

  /** The reformatted dates, missing ones skipped. */
  function Dates(rows: seq<CleanRow>): (r: seq<string>)
    ensures forall d :: d in r <==> exists i :: 0 <= i < |rows| && rows[i].datePublished == Some(d)
    decreases |rows|
  {
    if |rows| == 0 then []
    else
      var rest := Dates(rows[1..]);
      assert forall i :: 1 <= i < |rows| ==> rows[i] == rows[1..][i - 1];
      (if rows[0].datePublished.Some? then [rows[0].datePublished.value] else []) + rest
  }

  /** The lexicographically least string of a non-empty list. */
  function Least(xs: seq<string>): (r: string)
    requires |xs| > 0
    ensures r in xs
    ensures forall x :: x in xs ==> LexLe(r, x)
    decreases |xs|
  {
    if |xs| == 1 then
      LexLeTotal(xs[0], xs[0]);
      xs[0]
    else
      var m := Least(xs[1..]);
      LexLeTotal(xs[0], m);
      if LexLe(xs[0], m) then
        forall x | x in xs ensures LexLe(xs[0], x) {
          if x != xs[0] {
            assert x in xs[1..];
            LexLeTransitive(xs[0], m, x);
          } else {
            LexLeTotal(x, x);
          }
        }
        xs[0]
      else
        assert forall x :: x in xs ==> x == xs[0] || x in xs[1..];
        m
  }

  /** The lexicographically greatest string of a non-empty list. */
  function Greatest(xs: seq<string>): (r: string)
    requires |xs| > 0
    ensures r in xs
    ensures forall x :: x in xs ==> LexLe(x, r)
    decreases |xs|
  {
    if |xs| == 1 then
      LexLeTotal(xs[0], xs[0]);
      xs[0]
    else
      var m := Greatest(xs[1..]);
      LexLeTotal(xs[0], m);
      if LexLe(m, xs[0]) then
        forall x | x in xs ensures LexLe(x, xs[0]) {
          if x != xs[0] {
            assert x in xs[1..];
            LexLeTransitive(x, m, xs[0]);
          } else {
            LexLeTotal(x, x);
          }
        }
        xs[0]
      else
        assert forall x :: x in xs ==> x == xs[0] || x in xs[1..];
        m
  }

  /** Every row has a published date. */
  predicate AllDated(rows: seq<CleanRow>) {
    forall i :: 0 <= i < |rows| ==> rows[i].datePublished.Some?
  }

  /** `'<' not supported between instances of 'float' and 'str'`. */
  const MixedMissing := Error(TypeError, "'<' not supported between instances of 'float' and 'str'")

  /** `Series.min()` and `Series.max()` of the reformatted dates, an
      object column after `strftime`: pandas fills missing values with
      an infinite float before comparing, so text dates mixed with missing
      ones raise TypeError, and with no date at all both are `nan`. */
  function DateSpan(rows: seq<CleanRow>): (r: Result<(string, string)>)
    ensures r.Failure? <==> Dates(rows) != [] && !AllDated(rows)
    ensures r.Failure? ==> r.error == MixedMissing
    ensures Dates(rows) == [] ==> r == Success(("nan", "nan"))
    ensures r.Success? && Dates(rows) != [] ==>
              && (exists i :: 0 <= i < |rows| && rows[i].datePublished == Some(r.value.0))
              && (exists i :: 0 <= i < |rows| && rows[i].datePublished == Some(r.value.1))
              && forall i :: 0 <= i < |rows| ==>
                   LexLe(r.value.0, rows[i].datePublished.value) && LexLe(rows[i].datePublished.value, r.value.1)
  {
    var ds := Dates(rows);
    if |ds| == 0 then Success(("nan", "nan"))
    else if !AllDated(rows) then Failure(MixedMissing)
    else
      var r := (Least(ds), Greatest(ds));
      assert forall i :: 0 <= i < |rows| ==> rows[i].datePublished.value in ds;
      Success(r)
  }

  /** `dest_folder + f'journals_{first_dt}_to_{last_dt}.csv'`. */
  function CsvName(dest: string, span: (string, string)): string {
    dest + "journals_" + span.0 + "_to_" + span.1 + ".csv"
  }

  /** What `clean_journal` writes: the rows and the file name. */
  datatype Csv = Csv(rows: seq<CleanRow>, filename: string)

  /** Every record has a published date. */
  predicate AllRecordsDated(records: seq<Journal>) {
    forall i :: 0 <= i < |records| ==> records[i].datePublished.Some?
  }

  /** The end of `clean_journal`, from the combined records: an empty file
      list cannot be concatenated (ValueError), a column no record carries
      is a KeyError and an unparsable date a ValueError, the dates being
      converted before the other columns are read; a record without a date
      among dated ones makes the span a TypeError; otherwise one clean row
      per record, in order, saved under the span of its dates. */
  function CleanRecords(files: seq<string>, records: seq<Journal>, reformat: string -> Option<string>, dest: string): (r: Result<Csv>)
    ensures |files| == 0 ==> r.Failure? && r.error.kind == ValueError
    ensures r.Failure? && r.error.kind == KeyError <==>
              |files| > 0 && !AllColumns(records) && (HasDates(records) ==> DatesParse(records, reformat))
    ensures r.Failure? && r.error.kind == TypeError <==>
              |files| > 0 && AllColumns(records) && DatesParse(records, reformat) && !AllRecordsDated(records)
    ensures r.Success? <==> |files| > 0 && AllColumns(records) && DatesParse(records, reformat) && AllRecordsDated(records)
    ensures r.Success? ==>
              && |r.value.rows| == |records|
              && (forall i :: 0 <= i < |records| ==> r.value.rows[i] == CleanRecord(records[i], reformat))
              && DateSpan(r.value.rows).Success?
              && r.value.filename == CsvName(dest, DateSpan(r.value.rows).value)
  {
    if |files| == 0 then Failure(Error(ValueError, "No objects to concatenate"))
    else if !HasDates(records) then Failure(Error(KeyError, "date_published"))
    else if !DatesParse(records, reformat) then Failure(Error(ValueError, "date_published"))
    else if !HasAuthors(records) then Failure(Error(KeyError, "authors"))
    else if !HasFields(records) then Failure(Error(KeyError, "fields_of_study"))
    else if !HasKeywords(records) then Failure(Error(KeyError, "keywords"))
    else
      var rows := Map((j: Journal) => CleanRecord(j, reformat), records);
      CleanedDates(records, rows, reformat);
      var span :- DateSpan(rows);
      Success(Csv(rows, CsvName(dest, span)))
  }

  /** With every date parsing, a cleaned row is dated exactly when its
      record is, and some row is dated when some record is. */
  lemma {:induction false} CleanedDates(records: seq<Journal>, rows: seq<CleanRow>, reformat: string -> Option<string>)
    requires DatesParse(records, reformat) && HasDates(records)
    requires |rows| == |records|
    requires forall i :: 0 <= i < |records| ==> rows[i] == CleanRecord(records[i], reformat)
    ensures AllDated(rows) <==> AllRecordsDated(records)
    ensures Dates(rows) != []
  {
    var k :| 0 <= k < |records| && records[k].datePublished.Some?;
    assert rows[k].datePublished.value in Dates(rows);
    assert forall i :: 0 <= i < |rows| ==> (rows[i].datePublished.Some? <==> records[i].datePublished.Some?);
  }

  /** The file name brackets every date of the saved rows. */
  lemma NameBracketsDates(rows: seq<CleanRow>, i: nat)
    requires i < |rows| && AllDated(rows)
    ensures DateSpan(rows).Success?
    ensures LexLe(DateSpan(rows).value.0, rows[i].datePublished.value)
    ensures LexLe(rows[i].datePublished.value, DateSpan(rows).value.1)
  {
    assert rows[i].datePublished.value in Dates(rows);
  }

  /** One dated and one undated record: the span raises TypeError, so
      nothing is saved. */
  lemma MixedDatesFail(dated: CleanRow, undated: CleanRow)
    requires dated.datePublished.Some? && undated.datePublished.None?
    ensures DateSpan([dated, undated]) == Failure(MixedMissing)
  {
    assert dated.datePublished.value in Dates([dated, undated]);
    assert !AllDated([dated, undated]) by {
      assert [dated, undated][1] == undated;
    }
  }

  /** A run of `clean_journal`: the processed log afterwards and the
      outcome. */
  datatype JournalRun = JournalRun(log: seq<string>, result: Result<Csv>)

  /** `clean_journal(files)` with each file added to the log as soon as it
      is read, as `append_processed_files_to_log(pd.Series([json_file]))`
      would do: the log gains every file even when the cleaning fails
      afterwards. */
  function CleanJournal(files: seq<string>, log: seq<string>, read: string -> seq<Journal>, reformat: string -> Option<string>, dest: string): (r: JournalRun)
    ensures r.log == AppendLog(log, files)
    ensures r.result == CleanRecords(files, Records(files, read), reformat, dest)
  {
    AppendEachIsBulk(log, files);
    JournalRun(AppendEach(log, files), CleanRecords(files, Records(files, read), reformat, dest))
  }

  /** `clean_journal` as written passes the file name itself to
      `append_processed_files_to_log`, and `pd.concat` refuses a string:
      the first file read raises TypeError and the log is not touched. */
  function CleanJournalAsWritten(files: seq<string>, log: seq<string>, read: string -> seq<Journal>, reformat: string -> Option<string>, dest: string): (r: JournalRun)
    ensures r.log == log
    ensures r.result.Failure?
  {
    if |files| == 0 then JournalRun(log, CleanRecords(files, [], reformat, dest))
    else JournalRun(log, Failure(Error(TypeError, "cannot concatenate object of type '<class 'str'>'")))
  }

  /** As written no CSV is ever produced; with each file added to the log
      as a one-element Series, one file holding one complete record is
      saved. */
  lemma LogAppendCounterexample(read: string -> seq<Journal>, reformat: string -> Option<string>, j: Journal)
    requires read("a.json") == [j]
    requires j.datePublished.Some? && reformat(j.datePublished.value).Some?
    requires j.authors.Some? && j.fieldsOfStudy.Some? && j.keywords.Some?
    ensures CleanJournalAsWritten(["a.json"], [], read, reformat, "").result.error.kind == TypeError
    ensures CleanJournal(["a.json"], [], read, reformat, "").result.Success?
    ensures CleanJournal(["a.json"], [], read, reformat, "").log == ["a.json"]
  {
    var records := Records(["a.json"], read);
    assert records == [j];
    assert records[0].datePublished.Some? && records[0].authors.Some?;
    assert records[0].fieldsOfStudy.Some? && records[0].keywords.Some?;
  }

  /** `main(save_to)` over the corrected `clean_journal`: clean the files
      the log does not list yet; only a saved CSV is uploaded or
      reported. */
  function JournalMain(listed: seq<string>, log: seq<string>, read: string -> seq<Journal>, reformat: string -> Option<string>, dest: string, save: Option<string>): (r: (JournalRun, seq<Action>))
    ensures r.0.result.Failure? ==> r.1 == []
    ensures r.0.result.Success? ==> r.1 == SaveActions(save, r.0.result.value.filename)
    ensures r.0.log == AppendLog(log, NewFiles(listed, log))
  {
    var run := CleanJournal(NewFiles(listed, log), log, read, reformat, dest);
    (run, if run.result.Success? then SaveActions(save, run.result.value.filename) else [])
  }

  /** After a corrected run nothing listed is new any more, whatever the
      outcome. */
  lemma JournalsCleanedOnce(listed: seq<string>, log: seq<string>, read: string -> seq<Journal>, reformat: string -> Option<string>, dest: string, save: Option<string>)
    ensures NewFiles(listed, JournalMain(listed, log, read, reformat, dest, save).0.log) == []
  {
    NothingNewAfterAppend(listed, log);
  }

  /** `main(save_to)` as written, over `clean_journal` as written: the
      cleaning always raises, so the log is untouched and nothing is
      delivered. */
  function JournalMainAsWritten(listed: seq<string>, log: seq<string>, read: string -> seq<Journal>, reformat: string -> Option<string>, dest: string, save: Option<string>): (r: (JournalRun, seq<Action>))
    ensures r.0.log == log && r.0.result.Failure?
    ensures r.1 == []
  {
    // The delivery after `clean_journal` is never reached.
    (CleanJournalAsWritten(NewFiles(listed, log), log, read, reformat, dest), [])
  }

  /** As written a run leaves every new file new, so the next run tries
      the same files again; the corrected run leaves none. */
  lemma JournalMainDiscrepancy(listed: seq<string>, log: seq<string>, read: string -> seq<Journal>, reformat: string -> Option<string>, dest: string, save: Option<string>)
    ensures NewFiles(listed, JournalMainAsWritten(listed, log, read, reformat, dest, save).0.log) == NewFiles(listed, log)
    ensures NewFiles(listed, JournalMain(listed, log, read, reformat, dest, save).0.log) == []
  {
    JournalsCleanedOnce(listed, log, read, reformat, dest, save);
  }
}

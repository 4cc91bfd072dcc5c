/** The four Lens.org ingestion loops with what they send and write:
    `ingest_patents` of `lens_patent_ingestion.py` and `lens_api_reader.py`,
    and `ingest_journals` of `lens_journal_ingestion.py` and
    `lens_journal_reader.py`. Each runs the offset walk of `Pagination`,
    sends one request body per offset and writes every OK page to a local
    file named by that offset. */
module LensIngest {
  import opened Wrappers
  import opened Strings
  import opened Seqs
  import opened Pagination
  import opened Delivery
  import PatentQuery
  import JournalQuery

  /** A local file written by the loop, with the save actions requested
      for it. */
  datatype SavedFile = SavedFile(path: string, content: string, actions: seq<Action>)

  /** One run: the request bodies in the order sent, the files in the order
      written, and why the loop ended. */
  datatype Run<B> = Run(requests: seq<B>, files: seq<SavedFile>, stop: Stop)

  /** All four scripts end a page's file name with `{start_from}.json`. */
  function OffsetPath(prefix: string, offset: nat): string {
    prefix + IntToString(offset) + ".json"
  }

  /** The offset can be read back from the file name. */
  lemma OffsetPathInjective(prefix: string, a: nat, b: nat)
    requires OffsetPath(prefix, a) == OffsetPath(prefix, b)
    ensures a == b
  {
    assert OffsetPath(prefix, a) == prefix + (IntToString(a) + ".json");
    assert OffsetPath(prefix, b) == prefix + (IntToString(b) + ".json");
    PrefixCancel(prefix, IntToString(a) + ".json", IntToString(b) + ".json");
    SuffixCancel(IntToString(a), IntToString(b), ".json");
    IntToStringInjective(a, b);
  }

  /** The walk with each offset rendered as a request and each saved page
      written under its offset's name. */
  function Execute<B>(w: Walk, request: nat -> B, prefix: string, actions: string -> seq<Action>): (r: Run<B>)
    ensures |r.requests| == |w.requests| && |r.files| == |w.saved| && r.stop == w.stop
    ensures forall k :: 0 <= k < |w.requests| ==> r.requests[k] == request(w.requests[k])
    ensures forall k :: 0 <= k < |w.saved| ==>
              r.files[k] == SavedFile(OffsetPath(prefix, w.saved[k].offset), w.saved[k].body,
                                      actions(OffsetPath(prefix, w.saved[k].offset)))
  {
    Run(Map(request, w.requests),
        Map((p: Page) => SavedFile(OffsetPath(prefix, p.offset), p.body, actions(OffsetPath(prefix, p.offset))), w.saved),
        w.stop)
  }

  /** A run from offset 0, described by the responses alone: the k-th
      request asks for the offset that is the sum of the earlier pages'
      `results`; the k-th file holds the k-th (OK) response under that
      offset's name; the loop aborts exactly when a request has no file,
      and then on the status of that response. */
  lemma RunFromResponses<B>(rs: seq<Response>, maxLimit: nat, request: nat -> B, prefix: string, actions: string -> seq<Action>)
    ensures var r := Execute(Ingest(rs, maxLimit), request, prefix, actions);
            && |r.files| <= |r.requests| <= |rs|
            && (forall k :: 0 <= k < |r.requests| ==> r.requests[k] == request(Advanced(rs[..k])))
            && (forall k :: 0 <= k < |r.files| ==>
                  && rs[k].ok
                  && r.files[k] == SavedFile(OffsetPath(prefix, Advanced(rs[..k])), rs[k].body,
                                             actions(OffsetPath(prefix, Advanced(rs[..k])))))
            && (r.stop.Aborted? <==> |r.requests| == |r.files| + 1)
            && (r.stop.Aborted? ==> !rs[|r.files|].ok && r.stop.status == rs[|r.files|].status)
  {
    WalkOffsets(rs, 0, None, maxLimit);
    WalkSaved(rs, 0, None, maxLimit);
    WalkAbort(rs, 0, None, maxLimit);
  }

  /** When every OK page advances the offset, no two files share a name:
      no page overwrites another. */
  lemma DistinctFiles<B>(rs: seq<Response>, maxLimit: nat, request: nat -> B, prefix: string, actions: string -> seq<Action>)
    requires forall k :: 0 <= k < |rs| && rs[k].ok ==> rs[k].results > 0
    ensures var r := Execute(Ingest(rs, maxLimit), request, prefix, actions);
            forall i, j :: 0 <= i < j < |r.files| ==> r.files[i].path != r.files[j].path
  {
    var w := Ingest(rs, maxLimit);
    var r := Execute(w, request, prefix, actions);
    OffsetsIncrease(rs, 0, None, maxLimit);
    WalkSaved(rs, 0, None, maxLimit);
    forall i, j | 0 <= i < j < |r.files| ensures r.files[i].path != r.files[j].path {
      assert w.saved[i].offset < w.saved[j].offset;
      if r.files[i].path == r.files[j].path {
        OffsetPathInjective(prefix, w.saved[i].offset, w.saved[j].offset);
      }
    }
  }

  /** Every request after the first asks for an offset below the cap of
      the previous response, hence below `max_limit`. */
  lemma RequestsBelowLimit<B>(rs: seq<Response>, maxLimit: nat, request: nat -> B, prefix: string, actions: string -> seq<Action>)
    ensures var r := Execute(Ingest(rs, maxLimit), request, prefix, actions);
            forall k :: 1 <= k < |r.requests| ==> Advanced(rs[..k]) < maxLimit
  {
    WalkContinues(rs, 0, None, maxLimit);
  }

  // ---------------------------------------------------------------------
  // Patents

  /** `patent_data_folder + f"patents_{start_d}_to_{end_d}_from_"`. */
  function PatentPrefix(folder: string, start: string, end: string): string {
    folder + "patents_" + start + "_to_" + end + "_from_"
  }

  /** `ingest_patents` of `lens_patent_ingestion.py`: `build_data` fails
      before any request on an empty configured list; otherwise the k-th
      request is the search data with the k-th offset, and each OK page is
      written locally and handed to the `--save` dispatch. */
  function IngestPatents(l: PatentQuery.Layout, jurisdictions: seq<string>, types: seq<string>, start: string, end: string,
                         size: int, maxLimit: nat, folder: string, save: Option<string>, rs: seq<Response>): (r: Result<Run<string>>)
    ensures r.Failure? <==> |jurisdictions| == 0 || |types| == 0
    ensures r.Success? ==> |r.value.files| <= |r.value.requests| <= |rs|
    ensures r.Success? ==>
              var data := PatentQuery.BuildData(l, jurisdictions, types, start, end).value;
              forall k :: 0 <= k < |r.value.requests| ==>
                r.value.requests[k] == PatentQuery.RequestBody(l, data, Advanced(rs[..k]), size)
    ensures r.Success? ==>
              forall k :: 0 <= k < |r.value.files| ==>
                var path := OffsetPath(PatentPrefix(folder, start, end), Advanced(rs[..k]));
                rs[k].ok && r.value.files[k] == SavedFile(path, rs[k].body, SaveActions(save, path))
    ensures r.Success? ==> (r.value.stop.Aborted? <==> |r.value.requests| == |r.value.files| + 1)
  {
    var data :- PatentQuery.BuildData(l, jurisdictions, types, start, end);
    var request := (o: nat) => PatentQuery.RequestBody(l, data, o, size);
    var actions := (p: string) => SaveActions(save, p);
    RunFromResponses(rs, maxLimit, request, PatentPrefix(folder, start, end), actions);
    Success(Execute(Ingest(rs, maxLimit), request, PatentPrefix(folder, start, end), actions))
  }

  /** With every OK page advancing the offset, the patent loop sends no
      request body twice and writes no file name twice. */
  lemma PatentRunDistinct(l: PatentQuery.Layout, jurisdictions: seq<string>, types: seq<string>, start: string, end: string,
                          size: int, maxLimit: nat, folder: string, save: Option<string>, rs: seq<Response>)
    requires PatentQuery.LayoutOk(l) && |jurisdictions| > 0 && |types| > 0
    requires forall k :: 0 <= k < |rs| && rs[k].ok ==> rs[k].results > 0
    ensures var r := IngestPatents(l, jurisdictions, types, start, end, size, maxLimit, folder, save, rs).value;
            && (forall i, j :: 0 <= i < j < |r.requests| ==> r.requests[i] != r.requests[j])
            && (forall i, j :: 0 <= i < j < |r.files| ==> r.files[i].path != r.files[j].path)
  {
    PatentRequestsDistinct(l, jurisdictions, types, start, end, size, maxLimit, folder, save, rs);
    PatentFilesDistinct(l, jurisdictions, types, start, end, size, maxLimit, folder, save, rs);
  }

  lemma PatentRequestsDistinct(l: PatentQuery.Layout, jurisdictions: seq<string>, types: seq<string>, start: string, end: string,
                          size: int, maxLimit: nat, folder: string, save: Option<string>, rs: seq<Response>)
    requires PatentQuery.LayoutOk(l) && |jurisdictions| > 0 && |types| > 0
    requires forall k :: 0 <= k < |rs| && rs[k].ok ==> rs[k].results > 0
    ensures var r := IngestPatents(l, jurisdictions, types, start, end, size, maxLimit, folder, save, rs).value;
            forall i, j :: 0 <= i < j < |r.requests| ==> r.requests[i] != r.requests[j]
  {
    var data := PatentQuery.BuildData(l, jurisdictions, types, start, end).value;
    var r := IngestPatents(l, jurisdictions, types, start, end, size, maxLimit, folder, save, rs).value;
    forall i, j | 0 <= i < j < |r.requests| ensures r.requests[i] != r.requests[j] {
      assert i < |r.files| && rs[i].ok;
      AdvancedGrows(rs, i, j);
      if r.requests[i] == r.requests[j] {
        PatentQuery.RequestBodyInjective(l, data, Advanced(rs[..i]), size, Advanced(rs[..j]), size);
      }
    }
  }

  lemma PatentFilesDistinct(l: PatentQuery.Layout, jurisdictions: seq<string>, types: seq<string>, start: string, end: string,
                          size: int, maxLimit: nat, folder: string, save: Option<string>, rs: seq<Response>)
    requires PatentQuery.LayoutOk(l) && |jurisdictions| > 0 && |types| > 0
    requires forall k :: 0 <= k < |rs| && rs[k].ok ==> rs[k].results > 0
    ensures var r := IngestPatents(l, jurisdictions, types, start, end, size, maxLimit, folder, save, rs).value;
            forall i, j :: 0 <= i < j < |r.files| ==> r.files[i].path != r.files[j].path
  {
    var r := IngestPatents(l, jurisdictions, types, start, end, size, maxLimit, folder, save, rs).value;
    forall i, j | 0 <= i < j < |r.files| ensures r.files[i].path != r.files[j].path {
      AdvancedGrows(rs, i, j);
      if r.files[i].path == r.files[j].path {
        OffsetPathInjective(PatentPrefix(folder, start, end), Advanced(rs[..i]), Advanced(rs[..j]));
      }
    }
  }


  /** `lens_api_reader.py`: the hard-coded lists, 100 results a page, a cap
      of 300, files under `../data/raw/patents/` and no upload. */
  function ReadPatents(l: PatentQuery.Layout, start: string, end: string, rs: seq<Response>): (r: Run<string>)
    ensures |r.files| <= |r.requests| <= |rs|
    ensures forall k :: 0 <= k < |r.files| ==>
              && r.files[k].path == OffsetPath(PatentPrefix("../data/raw/patents/", start, end), Advanced(rs[..k]))
              && r.files[k].content == rs[k].body
              && r.files[k].actions == []
    ensures forall k :: 0 <= k < |r.requests| ==>
              r.requests[k] == PatentQuery.RequestBody(l, PatentQuery.BuildData(l, PatentQuery.ReaderJurisdictions,
                                                         PatentQuery.ReaderTypes, start, end).value,
                                                       Advanced(rs[..k]), PatentQuery.ReaderSize)
    ensures forall k :: 1 <= k < |r.requests| ==> Advanced(rs[..k]) < PatentQuery.ReaderMaxLimit
  {
    var data := PatentQuery.BuildData(l, PatentQuery.ReaderJurisdictions, PatentQuery.ReaderTypes, start, end).value;
    var request := (o: nat) => PatentQuery.RequestBody(l, data, o, PatentQuery.ReaderSize);
    var prefix := PatentPrefix("../data/raw/patents/", start, end);
    var actions := (p: string) => [];
    RunFromResponses(rs, PatentQuery.ReaderMaxLimit, request, prefix, actions);
    RequestsBelowLimit(rs, PatentQuery.ReaderMaxLimit, request, prefix, actions);
    Execute(Ingest(rs, PatentQuery.ReaderMaxLimit), request, prefix, actions)
  }

  // ---------------------------------------------------------------------
  // Journals

  /** `filepath + f"journals_{start_d}_to_{end_d}_from_"`. */
  function JournalPrefix(folder: string, start: string, end: string): string {
    folder + "journals_" + start + "_to_" + end + "_from_"
  }

  /** `ingest_journals` of `lens_journal_ingestion.py`: the k-th request is
      the query with the k-th offset and 50000 results a page, capped at
      999999; pages are written locally only (the `--save` dispatch acts
      on the cleaned CSV afterwards). */
  function IngestJournals(folder: string, start: string, end: string, rs: seq<Response>): (r: Run<JournalQuery.Json>)
    ensures |r.files| <= |r.requests| <= |rs|
    ensures forall k :: 0 <= k < |r.requests| ==>
              r.requests[k] == JournalQuery.BuildQuery(JournalQuery.IngestionFilters, Advanced(rs[..k]), start, end,
                                                       JournalQuery.IngestionSize)
    ensures forall k :: 0 <= k < |r.files| ==>
              && rs[k].ok
              && r.files[k] == SavedFile(OffsetPath(JournalPrefix(folder, start, end), Advanced(rs[..k])), rs[k].body, [])
    ensures r.stop.Aborted? <==> |r.requests| == |r.files| + 1
    ensures forall k :: 1 <= k < |r.requests| ==> Advanced(rs[..k]) < JournalQuery.IngestionMaxLimit
  {
    var request := (o: nat) => JournalQuery.BuildQuery(JournalQuery.IngestionFilters, o, start, end, JournalQuery.IngestionSize);
    var actions := (p: string) => [];
    RunFromResponses(rs, JournalQuery.IngestionMaxLimit, request, JournalPrefix(folder, start, end), actions);
    RequestsBelowLimit(rs, JournalQuery.IngestionMaxLimit, request, JournalPrefix(folder, start, end), actions);
    Execute(Ingest(rs, JournalQuery.IngestionMaxLimit), request, JournalPrefix(folder, start, end), actions)
  }

  /** With every OK page advancing the offset, the journal loop sends no
      query twice and writes no file name twice. */
  lemma JournalRunDistinct(folder: string, start: string, end: string, rs: seq<Response>)
    requires forall k :: 0 <= k < |rs| && rs[k].ok ==> rs[k].results > 0
    ensures var r := IngestJournals(folder, start, end, rs);
            && (forall i, j :: 0 <= i < j < |r.requests| ==> r.requests[i] != r.requests[j])
            && (forall i, j :: 0 <= i < j < |r.files| ==> r.files[i].path != r.files[j].path)
  {
    var r := IngestJournals(folder, start, end, rs);
    forall i, j | 0 <= i < j < |r.requests| ensures r.requests[i] != r.requests[j] {
      assert i < |r.files| && rs[i].ok;
      AdvancedGrows(rs, i, j);
      assert r.requests[i].fields[3] != r.requests[j].fields[3];
    }
    forall i, j | 0 <= i < j < |r.files| ensures r.files[i].path != r.files[j].path {
      AdvancedGrows(rs, i, j);
      if r.files[i].path == r.files[j].path {
        OffsetPathInjective(JournalPrefix(folder, start, end), Advanced(rs[..i]), Advanced(rs[..j]));
      }
    }
  }

  /** `"../data/raw/journals/" + f"journals_{year_published}_from_"`. */
  function YearPrefix(year: int): string {
    JournalReaderDir + IntToString(year) + "_from_"
  }

  const JournalReaderDir := "../data/raw/journals/" + "journals_"

  /** `lens_journal_reader.py` after `--year`: the k-th request is the
      reader query for that year at the k-th offset, 100 results a page,
      capped at 300; the file names carry the year and the offset. */
  function ReadJournals(year: int, rs: seq<Response>): (r: Run<JournalQuery.Json>)
    ensures |r.files| <= |r.requests| <= |rs|
    ensures forall k :: 0 <= k < |r.requests| ==>
              r.requests[k] == JournalQuery.BuildReaderQuery(JournalQuery.ReaderFiltersFor(year), Advanced(rs[..k]),
                                                             JournalQuery.ReaderSize)
    ensures forall k :: 0 <= k < |r.files| ==>
              && rs[k].ok
              && r.files[k] == SavedFile(OffsetPath(YearPrefix(year), Advanced(rs[..k])), rs[k].body, [])
    ensures r.stop.Aborted? <==> |r.requests| == |r.files| + 1
    ensures forall k :: 1 <= k < |r.requests| ==> Advanced(rs[..k]) < JournalQuery.ReaderMaxLimit
  {
    var request := (o: nat) => JournalQuery.BuildReaderQuery(JournalQuery.ReaderFiltersFor(year), o, JournalQuery.ReaderSize);
    var actions := (p: string) => [];
    RunFromResponses(rs, JournalQuery.ReaderMaxLimit, request, YearPrefix(year), actions);
    RequestsBelowLimit(rs, JournalQuery.ReaderMaxLimit, request, YearPrefix(year), actions);
    Execute(Ingest(rs, JournalQuery.ReaderMaxLimit), request, YearPrefix(year), actions)
  }

  /** Runs for different years never write the same file. */
  lemma YearFilesDisjoint(y1: int, y2: int, rs1: seq<Response>, rs2: seq<Response>, i: nat, j: nat)
    requires y1 != y2
    requires i < |ReadJournals(y1, rs1).files| && j < |ReadJournals(y2, rs2).files|
    ensures ReadJournals(y1, rs1).files[i].path != ReadJournals(y2, rs2).files[j].path
  {
    YearPathsDiffer(y1, y2, Advanced(rs1[..i]), Advanced(rs2[..j]));
  }

  lemma YearPathsDiffer(y1: int, y2: int, a: nat, b: nat)
    requires y1 != y2
    ensures OffsetPath(YearPrefix(y1), a) != OffsetPath(YearPrefix(y2), b)
  {
    TaggedPathsDiffer(JournalReaderDir, y1, y2, a, b);
  }

  lemma TaggedPathShape(dir: string, y: int, a: nat)
    ensures OffsetPath(dir + IntToString(y) + "_from_", a) == dir + (IntToString(y) + ['_'] + ("from_" + IntToString(a) + ".json"))
  {
    assert "_from_" == ['_'] + "from_";
  }

  lemma TaggedPathsDiffer(dir: string, y1: int, y2: int, a: nat, b: nat)
    requires y1 != y2
    ensures OffsetPath(dir + IntToString(y1) + "_from_", a) != OffsetPath(dir + IntToString(y2) + "_from_", b)
  {
    var u1 := "from_" + IntToString(a) + ".json";
    var u2 := "from_" + IntToString(b) + ".json";
    var p1 := OffsetPath(dir + IntToString(y1) + "_from_", a);
    var p2 := OffsetPath(dir + IntToString(y2) + "_from_", b);
    TaggedPathShape(dir, y1, a);
    TaggedPathShape(dir, y2, b);
    IntToStringAvoids(y1, '_');
    IntToStringAvoids(y2, '_');
    if p1 == p2 {
      PrefixCancel(dir, IntToString(y1) + ['_'] + u1, IntToString(y2) + ['_'] + u2);
      SeparatorCancel(IntToString(y1), u1, IntToString(y2), u2, '_');
      IntToStringInjective(y1, y2);
    }
  }
}

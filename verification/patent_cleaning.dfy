/** `patent_cleaning.py`: every raw patent file not yet in the processed
    log is flattened into four tables (patent data, CPC classifications,
    applicants, inventors), saved under the file's name with both suffixes
    removed, optionally uploaded, and finally all processed files are added
    to the log. Reading a file (gzip lines or the `data` list of a JSON
    document) and writing parquet are given: `read` maps a path to the
    patent records it holds. */
module PatentCleaning {
  import opened Wrappers
  import opened Strings
  import opened Seqs
  import opened Delivery
  import opened Ledger

  // ---------------------------------------------------------------------
  // Records and rows

  /** An applicant or inventor: `residence` may be absent, the extracted
      name is always read. */
  datatype Party = Party(residence: Option<string>, name: string)

  /** One Lens.org patent record, as far as the cleaner reads it. `title`
      and `abstract` are the `text` entries of their lists, `None` when the
      key is absent; `inventors` and `cpc` (the CPC symbols) likewise. */
  datatype Patent = Patent(
    lensId: string,
    jurisdiction: string,
    docKey: string,
    datePublished: string,
    title: Option<seq<string>>,
    summary: Option<seq<string>>,
    applicants: seq<Party>,
    inventors: Option<seq<Party>>,
    cpc: Option<seq<string>>)

  datatype DataRow = DataRow(lensId: string, jurisdiction: string, patentId: string, datePublished: string, title: string, summary: string)
  datatype PartyRow = PartyRow(lensId: string, patentId: string, residence: string, name: string)
  datatype ClassRow = ClassRow(lensId: string, patentId: string, classification: string)

  /** The four tables built from one file. */
  datatype Tables = Tables(data: seq<DataRow>, classifications: seq<ClassRow>, applicants: seq<PartyRow>, inventors: seq<PartyRow>)

  const NoRows := Tables([], [], [], [])

  function Combine(a: Tables, b: Tables): Tables {
    Tables(a.data + b.data, a.classifications + b.classifications, a.applicants + b.applicants, a.inventors + b.inventors)
  }

  /** A record the cleaner keeps: its title key is present. */
  predicate HasTitle(p: Patent) {
    p.title.Some?
  }

  /** A kept record whose title or abstract list is empty: `[0]` raises
      IndexError. */
  predicate Broken(p: Patent) {
    p.title.Some? && (|p.title.value| == 0 || (p.summary.Some? && |p.summary.value| == 0))
  }

  function PartyRows(p: Patent, parties: seq<Party>): seq<PartyRow> {
    Map((a: Party) => PartyRow(p.lensId, p.docKey, a.residence.GetOr("NA"), a.name), parties)
  }

  function ClassRows(p: Patent, symbols: seq<string>): seq<ClassRow> {
    Map((s: string) => ClassRow(p.lensId, p.docKey, s), symbols)
  }

  /** The rows of one record. A record without a title contributes
      nothing; otherwise one data row with the first title and the first
      abstract (`na` when there is none), one row per applicant (residence
      `NA` when absent), one per inventor and one per CPC symbol when those
      lists are present, all tagged with the record's lens id and
      document key. */
  function PatentRows(p: Patent): (r: Result<Tables>)
    ensures !HasTitle(p) ==> r == Success(NoRows)
    ensures r.Failure? <==> Broken(p)
    ensures r.Failure? ==> r.error.kind == IndexError
    ensures r.Success? && HasTitle(p) ==>
              && r.value.data == [DataRow(p.lensId, p.jurisdiction, p.docKey, p.datePublished, p.title.value[0],
                                          if p.summary.Some? then p.summary.value[0] else "na")]
              && |r.value.applicants| == |p.applicants|
              && (forall k :: 0 <= k < |p.applicants| ==>
                    r.value.applicants[k] == PartyRow(p.lensId, p.docKey, p.applicants[k].residence.GetOr("NA"), p.applicants[k].name))
              && |r.value.inventors| == (if p.inventors.Some? then |p.inventors.value| else 0)
              && (forall k :: 0 <= k < |r.value.inventors| ==>
                    r.value.inventors[k] == PartyRow(p.lensId, p.docKey, p.inventors.value[k].residence.GetOr("NA"), p.inventors.value[k].name))
              && |r.value.classifications| == (if p.cpc.Some? then |p.cpc.value| else 0)
              && (forall k :: 0 <= k < |r.value.classifications| ==>
                    r.value.classifications[k] == ClassRow(p.lensId, p.docKey, p.cpc.value[k]))
  {
    if p.title.None? then Success(NoRows)
    else if p.summary.Some? && |p.summary.value| == 0 then Failure(Error(IndexError, "abstract[0]"))
    else if |p.title.value| == 0 then Failure(Error(IndexError, "invention_title[0]"))
    else
      var summary := if p.summary.Some? then p.summary.value[0] else "na";
      Success(Tables(
        [DataRow(p.lensId, p.jurisdiction, p.docKey, p.datePublished, p.title.value[0], summary)],
        if p.cpc.Some? then ClassRows(p, p.cpc.value) else [],
        PartyRows(p, p.applicants),
        if p.inventors.Some? then PartyRows(p, p.inventors.value) else []))
  }

  /** Every row of a table set names a record of `patents` by lens id and
      document key. */
  predicate Tagged(t: Tables, patents: seq<Patent>) {
    && (forall i :: 0 <= i < |t.data| ==> exists j :: 0 <= j < |patents| && t.data[i].lensId == patents[j].lensId && t.data[i].patentId == patents[j].docKey)
    && (forall i :: 0 <= i < |t.classifications| ==> exists j :: 0 <= j < |patents| && t.classifications[i].lensId == patents[j].lensId && t.classifications[i].patentId == patents[j].docKey)
    && (forall i :: 0 <= i < |t.applicants| ==> exists j :: 0 <= j < |patents| && t.applicants[i].lensId == patents[j].lensId && t.applicants[i].patentId == patents[j].docKey)
    && (forall i :: 0 <= i < |t.inventors| ==> exists j :: 0 <= j < |patents| && t.inventors[i].lensId == patents[j].lensId && t.inventors[i].patentId == patents[j].docKey)
  }

  /** The rows of one file's records, in record order. The first broken
      kept record stops the file with IndexError; otherwise there is one
      data row per titled record and every row is tagged with a record of
      the file. */
  function FileRows(patents: seq<Patent>): (r: Result<Tables>)
    ensures r.Failure? <==> exists i :: 0 <= i < |patents| && Broken(patents[i])
    ensures r.Failure? ==> r.error.kind == IndexError
    ensures r.Success? ==> |r.value.data| == Count(HasTitle, patents)
    ensures r.Success? ==> Tagged(r.value, patents)
    decreases |patents|
  {
    if |patents| == 0 then Success(NoRows)
    else
      var first :- PatentRows(patents[0]);
      var rest :- FileRows(patents[1..]);
      TaggedCons(first, rest, patents);
      Success(Combine(first, rest))
  }

  lemma TaggedCons(first: Tables, rest: Tables, patents: seq<Patent>)
    requires |patents| > 0
    requires PatentRows(patents[0]) == Success(first)
    requires Tagged(rest, patents[1..])
    ensures Tagged(Combine(first, rest), patents)
  {
    var t := Combine(first, rest);
    var p := patents[0];
    forall i | 0 <= i < |t.data|
      ensures exists j :: 0 <= j < |patents| && t.data[i].lensId == patents[j].lensId && t.data[i].patentId == patents[j].docKey
    {
      if i >= |first.data| {
        var j :| 0 <= j < |patents[1..]| && rest.data[i - |first.data|].lensId == patents[1..][j].lensId && rest.data[i - |first.data|].patentId == patents[1..][j].docKey;
        assert patents[1..][j] == patents[j + 1];
      }
    }
    forall i | 0 <= i < |t.classifications|
      ensures exists j :: 0 <= j < |patents| && t.classifications[i].lensId == patents[j].lensId && t.classifications[i].patentId == patents[j].docKey
    {
      if i >= |first.classifications| {
        var j :| 0 <= j < |patents[1..]| && rest.classifications[i - |first.classifications|].lensId == patents[1..][j].lensId && rest.classifications[i - |first.classifications|].patentId == patents[1..][j].docKey;
        assert patents[1..][j] == patents[j + 1];
      }
    }
    forall i | 0 <= i < |t.applicants|
      ensures exists j :: 0 <= j < |patents| && t.applicants[i].lensId == patents[j].lensId && t.applicants[i].patentId == patents[j].docKey
    {
      if i >= |first.applicants| {
        var j :| 0 <= j < |patents[1..]| && rest.applicants[i - |first.applicants|].lensId == patents[1..][j].lensId && rest.applicants[i - |first.applicants|].patentId == patents[1..][j].docKey;
        assert patents[1..][j] == patents[j + 1];
      }
    }
    forall i | 0 <= i < |t.inventors|
      ensures exists j :: 0 <= j < |patents| && t.inventors[i].lensId == patents[j].lensId && t.inventors[i].patentId == patents[j].docKey
    {
      if i >= |first.inventors| {
        var j :| 0 <= j < |patents[1..]| && rest.inventors[i - |first.inventors|].lensId == patents[1..][j].lensId && rest.inventors[i - |first.inventors|].patentId == patents[1..][j].docKey;
        assert patents[1..][j] == patents[j + 1];
      }
    }
  }

  /** The rows of a file split in two are the rows of the first part
      followed by those of the second, and the split file fails exactly
      when one of its parts does. */
  lemma {:induction false} FileRowsAppend(a: seq<Patent>, b: seq<Patent>)
    ensures FileRows(a + b).Success? <==> FileRows(a).Success? && FileRows(b).Success?
    ensures FileRows(a + b).Success? ==> FileRows(a + b).value == Combine(FileRows(a).value, FileRows(b).value)
    decreases |a|
  {
    if |a| == 0 {
      assert a + b == b;
      var t := FileRows(b);
      if t.Success? {
        assert Combine(NoRows, t.value) == t.value;
      }
    } else {
      assert (a + b)[0] == a[0] && (a + b)[1..] == a[1..] + b;
      FileRowsAppend(a[1..], b);
      var first := PatentRows(a[0]);
      if first.Success? && FileRows(a[1..]).Success? && FileRows(b).Success? {
        CombineAssoc(first.value, FileRows(a[1..]).value, FileRows(b).value);
      }
    }
  }

  lemma CombineAssoc(x: Tables, y: Tables, z: Tables)
    ensures Combine(Combine(x, y), z) == Combine(x, Combine(y, z))
  {
    assert x.data + y.data + z.data == x.data + (y.data + z.data);
    assert x.classifications + y.classifications + z.classifications == x.classifications + (y.classifications + z.classifications);
    assert x.applicants + y.applicants + z.applicants == x.applicants + (y.applicants + z.applicants);
    assert x.inventors + y.inventors + z.inventors == x.inventors + (y.inventors + z.inventors);
  }

  /** Records without a title are skipped outright: removing them from a
      file changes none of its rows. */
  lemma {:induction false} UntitledSkipped(patents: seq<Patent>)
    ensures FileRows(Filter(HasTitle, patents)) == FileRows(patents)
    decreases |patents|
  {
    if |patents| > 0 {
      var p := patents[0];
      var rest := patents[1..];
      var kept := Filter(HasTitle, rest);
      UntitledSkipped(rest);
      if HasTitle(p) {
        var f := Filter(HasTitle, patents);
        assert f == [p] + kept;
        assert f[0] == p && f[1..] == kept;
      } else {
        assert Filter(HasTitle, patents) == kept;
        NoRowsUnit(FileRows(rest));
      }
    }
  }

  /** A record without a title adds nothing in front of a file. */
  lemma NoRowsUnit(t: Result<Tables>)
    ensures t.Success? ==> Combine(NoRows, t.value) == t.value
  {
  }

  // ---------------------------------------------------------------------
  // File names

  /** The position of the last `c` in `s`. */
  function LastIndexOf(s: string, c: char): (r: Option<nat>)
    ensures r.Some? ==> r.value < |s| && s[r.value] == c
    ensures r.Some? ==> forall k :: r.value < k < |s| ==> s[k] != c
    ensures r.None? ==> forall k :: 0 <= k < |s| ==> s[k] != c
    decreases |s|
  {
    if |s| == 0 then None
    else if s[|s| - 1] == c then Some(|s| - 1)
    else
      var r := LastIndexOf(s[..|s| - 1], c);
      assert s == s[..|s| - 1] + [s[|s| - 1]];
      r
  }

  /** The last `c` of `a + [c] + b`, when `b` has none, is the one after
      `a`. */
  lemma {:induction false} LastIndexAfter(a: string, c: char, b: string)
    requires c !in b
    ensures LastIndexOf(a + [c] + b, c) == Some(|a|)
    decreases |b|
  {
    var s := a + [c] + b;
    if |b| > 0 {
      assert s[..|s| - 1] == a + [c] + b[..|b| - 1];
      assert s[|s| - 1] == b[|b| - 1];
      LastIndexAfter(a, c, b[..|b| - 1]);
    }
  }

  /** `PurePath.suffix` of a file name: from its last `.` on, when that dot
      is neither the first nor the last character; otherwise empty. */
  function PathSuffix(name: string): (r: string)
    ensures r != "" ==> 2 <= |r| < |name| && r == name[|name| - |r|..] && r[0] == '.'
    ensures r != "" ==> forall k :: 1 <= k < |r| ==> r[k] != '.'
    ensures r == "" ==> |name| == 0 || name[|name| - 1] == '.' || forall k :: 0 < k < |name| ==> name[k] != '.'
  {
    var i := LastIndexOf(name, '.');
    if i.Some? && 0 < i.value < |name| - 1 then name[i.value..] else ""
  }

  /** `PurePath.stem`: the file name without its suffix. */
  function PathStem(name: string): (r: string)
    ensures r + PathSuffix(name) == name
    ensures |r| <= |name| && r == name[..|r|]
    ensures |r| > 0 <==> |name| > 0
  {
    var i := LastIndexOf(name, '.');
    if i.Some? && 0 < i.value < |name| - 1 then
      assert name[..i.value] + name[i.value..] == name;
      name[..i.value]
    else name
  }

  /** `Path(file).suffix`. */
  function FileSuffix(file: string): (r: string)
    ensures r != "" ==> r[0] == '.' && |r| < |file| && r == file[|file| - |r|..]
    ensures forall k :: 0 <= k < |r| ==> r[k] != '/'
  {
    var name := LastSegment(file);
    var r := PathSuffix(name);
    TailOfTail(file, name, r);
    r
  }

  /** A tail of a tail is a tail, and inherits its characters. */
  lemma TailOfTail(s: string, t: string, u: string)
    requires |t| <= |s| && t == s[|s| - |t|..]
    requires |u| <= |t| && u == t[|t| - |u|..]
    ensures u == s[|s| - |u|..]
    ensures forall k :: 0 <= k < |u| ==> u[k] in t
  {
    assert forall k :: 0 <= k < |u| ==> u[k] == t[|t| - |u| + k];
  }

  /** `Path(Path(file).stem).stem`: the file name with up to two suffixes
      removed. */
  function BaseName(file: string): (r: string)
    ensures forall k :: 0 <= k < |r| ==> r[k] != '/'
  {
    var name := LastSegment(file);
    var twice := PathStem(PathStem(name));
    forall k | 0 <= k < |twice| ensures twice[k] != '/' {
      assert twice[k] == PathStem(name)[k] == name[k];
    }
    twice
  }

  /** A non-empty stem and a suffix: the stem is what remains. */
  lemma StemOf(base: string, ext: string)
    requires |base| > 0 && |ext| > 0 && '.' !in ext
    ensures PathStem(base + "." + ext) == base
    ensures PathSuffix(base + "." + ext) == "." + ext
  {
    LastIndexAfter(base, '.', ext);
    var name := base + "." + ext;
    assert name[..|base|] == base;
    assert name[|base|..] == "." + ext;
  }

  /** A name without a dot is its own stem. */
  lemma StemKeeps(name: string)
    requires '.' !in name
    ensures PathStem(name) == name && PathSuffix(name) == ""
  {
  }

  /** `dir/base.json.gz` and `dir/base.json` both clean to `base`, and the
      suffix that picks the reader is the last one. */
  lemma CleanedName(dir: string, base: string, e1: string, e2: string)
    requires |base| > 0 && |e1| > 0 && |e2| > 0
    requires '.' !in base && '.' !in e1 && '.' !in e2
    requires '/' !in base && '/' !in e1 && '/' !in e2
    ensures BaseName(dir + "/" + (base + "." + e1 + "." + e2)) == base
    ensures FileSuffix(dir + "/" + (base + "." + e1 + "." + e2)) == "." + e2
    ensures BaseName(dir + "/" + (base + "." + e1)) == base
    ensures FileSuffix(dir + "/" + (base + "." + e1)) == "." + e1
  {
    var inner := base + "." + e1;
    assert '.' !in "." + e1 + "." + e2 ==> false;
    assert '/' !in inner + "." + e2;
    assert inner + "." + e2 == base + "." + e1 + "." + e2;
    LastSegmentOf(dir, inner + "." + e2);
    LastSegmentOf(dir, inner);
    StemOf(inner, e2);
    StemOf(base, e1);
    StemKeeps(base);
  }

  /** The name endings of the four parquet files written for one raw
      file. */
  const TableSuffixes := ["_data.parquet", "_classifications.parquet", "_applicants.parquet", "_inventors.parquet"]

  function OutputPaths(folder: string, base: string): (r: seq<string>)
    ensures |r| == 4
    ensures forall k :: 0 <= k < 4 ==> r[k] == folder + base + TableSuffixes[k]
  {
    Map((ending: string) => folder + base + ending, TableSuffixes)
  }

  /** The save dispatch of one file: `gdrive` uploads its four tables,
      `azure` prints one notice for all of them. */
  function PatentSaveActions(option: Option<string>, paths: seq<string>): (r: seq<Action>)
    ensures option == Some("gdrive") ==> r == Map((p: string) => Upload(p), paths)
    ensures option == Some("azure") ==> r == [AzureSkipped]
    ensures option != Some("gdrive") && option != Some("azure") ==> r == []
  {
    (if option == Some("gdrive") then Map((p: string) => Upload(p), paths) else [])
    + (if option == Some("azure") then [AzureSkipped] else [])
  }

  // ---------------------------------------------------------------------
  // The run

  /** The loop variable `f` between iterations: unbound, a gzip handle
      (consumed by its own iteration) or the `data` list of a JSON
      document. */
  datatype Handle = Unbound | Consumed | Listed(patents: seq<Patent>)

  /** A raw file with the two names the loop derives from its path: the
      suffix that picks the reader and the base name of its outputs. */
  datatype RawFile = RawFile(path: string, suffix: string, base: string)

  function Describe(file: string): RawFile {
    RawFile(file, FileSuffix(file), BaseName(file))
  }

  /** A file the loop reads afresh. */
  predicate Fresh(raw: RawFile) {
    raw.suffix == ".gz" || raw.suffix == ".json"
  }

  /** The records one iteration reads. A `.gz` or `.json` file is read
      afresh; any other file finds `f` as the previous iteration left it:
      unbound is NameError, a consumed gzip handle yields nothing, and a
      non-empty list yields records that are never parsed (`patent = ''`),
      so the first one raises TypeError. */
  function ReadStep(raw: RawFile, f: Handle, read: string -> seq<Patent>): (r: Result<(Tables, Handle)>)
    ensures Fresh(raw) ==> (r.Success? <==> FileRows(read(raw.path)).Success?)
    ensures Fresh(raw) && r.Success? ==> r.value.0 == FileRows(read(raw.path)).value
    ensures !Fresh(raw) && r.Success? ==> r.value == (NoRows, f)
    ensures !Fresh(raw) ==> (r.Failure? <==> f.Unbound? || (f.Listed? && |f.patents| > 0))
  {
    if raw.suffix == ".gz" then
      var t :- FileRows(read(raw.path));
      Success((t, Consumed))
    else if raw.suffix == ".json" then
      var t :- FileRows(read(raw.path));
      Success((t, Listed(read(raw.path))))
    else
      match f
      case Unbound => Failure(Error(NameError, "f"))
      case Consumed => Success((NoRows, f))
      case Listed(ps) =>
        if |ps| > 0 then Failure(Error(TypeError, "string indices must be integers")) else Success((NoRows, f))
  }

  /** What one processed file produced. */
  datatype Output = Output(file: string, base: string, tables: Tables, paths: seq<string>)

  /** The files processed in order, the actions requested, and the error
      that stopped the loop, if any; `outputs` holds the files finished
      before it. */
  datatype Loop = Loop(outputs: seq<Output>, actions: seq<Action>, error: Option<Error>)

  /** `out` is what the loop writes for `raw`: the file's base name, its
      four paths and, for a file read afresh, the rows of its records. */
  predicate Produced(out: Output, raw: RawFile, read: string -> seq<Patent>, folder: string) {
    && out.file == raw.path
    && out.base == raw.base
    && out.paths == OutputPaths(folder, raw.base)
    && (Fresh(raw) ==> FileRows(read(raw.path)) == Success(out.tables))
  }

  function OutputOf(raw: RawFile, tables: Tables, folder: string): Output {
    Output(raw.path, raw.base, tables, OutputPaths(folder, raw.base))
  }

  /** The `for file in files` loop: each file in turn, stopping at the
      first error. */
  function CleanFiles(raws: seq<RawFile>, f: Handle, read: string -> seq<Patent>, folder: string, save: Option<string>): (r: Loop)
    ensures |r.outputs| <= |raws|
    ensures r.error.None? <==> |r.outputs| == |raws|
    ensures forall i :: 0 <= i < |r.outputs| ==> Produced(r.outputs[i], raws[i], read, folder)
    ensures r.error.Some? && Fresh(raws[|r.outputs|]) ==> FileRows(read(raws[|r.outputs|].path)).Failure?
    ensures save != Some("gdrive") && save != Some("azure") ==> r.actions == []
    decreases |raws|
  {
    if |raws| == 0 then Loop([], [], None)
    else
      var step := ReadStep(raws[0], f, read);
      if step.Failure? then Loop([], [], Some(step.error))
      else
        var out := OutputOf(raws[0], step.value.0, folder);
        var rest := CleanFiles(raws[1..], step.value.1, read, folder, save);
        PointwiseCons((o: Output, raw: RawFile) => Produced(o, raw, read, folder), out, rest.outputs, raws);
        Loop([out] + rest.outputs, PatentSaveActions(save, out.paths) + rest.actions, rest.error)
  }

  /** A relation that holds pointwise for the tail and for the heads holds
      pointwise for the whole. */
  lemma PointwiseCons<A, B>(rel: (A, B) -> bool, x: A, xs: seq<A>, ys: seq<B>)
    requires |ys| > 0 && |xs| < |ys|
    requires rel(x, ys[0])
    requires forall i :: 0 <= i < |xs| ==> rel(xs[i], ys[1..][i])
    ensures forall i :: 0 <= i < |xs| + 1 ==> rel(([x] + xs)[i], ys[i])
  {
    forall i | 0 <= i < |xs| + 1 ensures rel(([x] + xs)[i], ys[i]) {
      if i > 0 {
        assert ([x] + xs)[i] == xs[i - 1] && ys[i] == ys[1..][i - 1];
      }
    }
  }

  /** No kept record of the file is broken. */
  predicate ReadsCleanly(raw: RawFile, read: string -> seq<Patent>) {
    FileRows(read(raw.path)).Success?
  }

  lemma AllOrFirst(raws: seq<RawFile>, read: string -> seq<Patent>)
    requires |raws| > 0
    ensures (forall i :: 0 <= i < |raws| ==> ReadsCleanly(raws[i], read)) <==>
            ReadsCleanly(raws[0], read) && forall i :: 0 <= i < |raws[1..]| ==> ReadsCleanly(raws[1..][i], read)
  {
    assert forall i :: 1 <= i < |raws| ==> raws[i] == raws[1..][i - 1];
  }

  /** When every file is `.gz` or `.json`, the loop finishes exactly when
      no file holds a broken record. */
  lemma {:induction false} CleanFilesFinishes(raws: seq<RawFile>, f: Handle, read: string -> seq<Patent>, folder: string, save: Option<string>)
    requires forall i :: 0 <= i < |raws| ==> Fresh(raws[i])
    ensures CleanFiles(raws, f, read, folder, save).error.None? <==> forall i :: 0 <= i < |raws| ==> ReadsCleanly(raws[i], read)
    decreases |raws|
  {
    if |raws| > 0 {
      AllOrFirst(raws, read);
      var step := ReadStep(raws[0], f, read);
      if step.Success? {
        assert forall i :: 0 <= i < |raws[1..]| ==> raws[1..][i] == raws[i + 1];
        CleanFilesFinishes(raws[1..], step.value.1, read, folder, save);
      }
    }
  }

  /** Every path of every output has an upload among `acts`. */
  predicate UploadedAll(outs: seq<Output>, acts: seq<Action>) {
    forall i, k :: 0 <= i < |outs| && 0 <= k < |outs[i].paths| ==> Upload(outs[i].paths[k]) in acts
  }

  lemma UploadedCons(out: Output, rest: seq<Output>, acts: seq<Action>, restActs: seq<Action>)
    requires forall k :: 0 <= k < |out.paths| ==> Upload(out.paths[k]) in acts
    requires UploadedAll(rest, restActs)
    ensures UploadedAll([out] + rest, acts + restActs)
  {
    var outs := [out] + rest;
    forall i, k | 0 <= i < |outs| && 0 <= k < |outs[i].paths| ensures Upload(outs[i].paths[k]) in acts + restActs {
      if i > 0 {
        assert outs[i] == rest[i - 1];
      }
    }
  }

  /** With `--save gdrive` every table written is uploaded. */
  lemma {:induction false} CleanFilesUploads(raws: seq<RawFile>, f: Handle, read: string -> seq<Patent>, folder: string)
    ensures var r := CleanFiles(raws, f, read, folder, Some("gdrive"));
            UploadedAll(r.outputs, r.actions)
    decreases |raws|
  {
    if |raws| > 0 {
      var step := ReadStep(raws[0], f, read);
      if step.Success? {
        CleanFilesUploads(raws[1..], step.value.1, read, folder);
        var out := OutputOf(raws[0], step.value.0, folder);
        var rest := CleanFiles(raws[1..], step.value.1, read, folder, Some("gdrive"));
        var acts := PatentSaveActions(Some("gdrive"), out.paths);
        assert forall k :: 0 <= k < |out.paths| ==> acts[k] == Upload(out.paths[k]);
        UploadedCons(out, rest.outputs, acts, rest.actions);
      }
    }
  }

  /** The result of `main`: the loop and the log afterwards. */
  datatype Cleaned = Cleaned(loop: Loop, log: seq<string>)

  /** `main(save_to)`: clean the files the log does not list yet, in
      listing order; the log gains all of them only when the loop
      finishes. */
  function CleanPatents(listed: seq<string>, log: seq<string>, read: string -> seq<Patent>, folder: string, save: Option<string>): (r: Cleaned)
    ensures r.loop.error.None? ==> r.log == AppendLog(log, NewFiles(listed, log))
    ensures r.loop.error.Some? ==> r.log == log
    ensures |r.loop.outputs| <= |NewFiles(listed, log)|
  {
    var files := NewFiles(listed, log);
    var loop := CleanFiles(Map(Describe, files), Unbound, read, folder, save);
    Cleaned(loop, if loop.error.None? then AppendLog(log, files) else log)
  }

  /** The run writes, in listing order, the new files' tables under their
      base names. */
  lemma CleanedFiles(listed: seq<string>, log: seq<string>, read: string -> seq<Patent>, folder: string, save: Option<string>)
    ensures var r := CleanPatents(listed, log, read, folder, save);
            forall i :: 0 <= i < |r.loop.outputs| ==>
              && r.loop.outputs[i].file == NewFiles(listed, log)[i]
              && r.loop.outputs[i].base == BaseName(r.loop.outputs[i].file)
              && r.loop.outputs[i].paths == OutputPaths(folder, r.loop.outputs[i].base)
  {
    var files := NewFiles(listed, log);
    var raws := Map(Describe, files);
    var loop := CleanFiles(raws, Unbound, read, folder, save);
    OutputsNamed(loop.outputs, raws, files, read, folder);
  }

  lemma OutputsNamed(outs: seq<Output>, raws: seq<RawFile>, files: seq<string>, read: string -> seq<Patent>, folder: string)
    requires |outs| <= |raws| == |files|
    requires forall i :: 0 <= i < |raws| ==> raws[i] == Describe(files[i])
    requires forall i :: 0 <= i < |outs| ==> Produced(outs[i], raws[i], read, folder)
    ensures forall i :: 0 <= i < |outs| ==>
              outs[i].file == files[i] && outs[i].base == BaseName(outs[i].file) && outs[i].paths == OutputPaths(folder, outs[i].base)
  {
  }

  /** A finished run leaves nothing new to clean; a failed one leaves the
      same files to clean on the next run. */
  lemma CleanedOnce(listed: seq<string>, log: seq<string>, read: string -> seq<Patent>, folder: string, save: Option<string>)
    ensures var r := CleanPatents(listed, log, read, folder, save);
            && (r.loop.error.None? ==> NewFiles(listed, r.log) == [])
            && (r.loop.error.Some? ==> NewFiles(listed, r.log) == NewFiles(listed, log))
  {
    NothingNewAfterAppend(listed, log);
  }

  /** A first file whose suffix is neither `.gz` nor `.json` stops the run
      with NameError: `f` was never bound. */
  lemma UnknownFirstFile(raws: seq<RawFile>, read: string -> seq<Patent>, folder: string, save: Option<string>)
    requires |raws| > 0 && !Fresh(raws[0])
    ensures CleanFiles(raws, Unbound, read, folder, save).error == Some(Error(NameError, "f"))
  {
  }
}

/** The GDELT 2.0 master file list of `gdelt_ingestion.py`:
    `extract_filename`, the `gkg` selection of `update_master_file`, the
    date window of the download loop and the choice between downloading
    the list and reading the local copy. The list itself, `pd.to_datetime`
    and the downloads are given as inputs. */
module GdeltMaster {
  import opened Wrappers
  import opened Strings
  import opened Seqs

  /** `xs[i]` with Python's negative indices; `None` where Python raises
      IndexError. */
  function PyIndex<T>(xs: seq<T>, i: int): (r: Option<T>)
    ensures r.Some? <==> -|xs| <= i < |xs|
    ensures r.Some? ==> r.value in xs
    ensures 0 <= i < |xs| ==> r == Some(xs[i])
    ensures -|xs| <= i < 0 ==> r == Some(xs[|xs| + i])
  {
    if 0 <= i < |xs| then Some(xs[i])
    else if -|xs| <= i < 0 then Some(xs[|xs| + i])
    else None
  }

  /** `extract_filename(url, ext_index)`: the `ext_index`-th `.`-piece of
      the last path segment, or `None` (the bare `except`) when there is
      no such piece. */
  function ExtractFilename(url: string, extIndex: int): (r: Option<string>)
    ensures r.Some? <==> -|Split(LastSegment(url), '.')| <= extIndex < |Split(LastSegment(url), '.')|
    ensures r.Some? ==> '.' !in r.value && '/' !in r.value
  {
    var pieces := Split(LastSegment(url), '.');
    var r := PyIndex(pieces, extIndex);
    SplitAvoids(LastSegment(url), '.', '/');
    if r.Some? then
      var k :| 0 <= k < |pieces| && pieces[k] == r.value;
      assert forall j :: 0 <= j < |pieces[k]| ==> pieces[k][j] != '/';
      r
    else r
  }

  /** On a master-list URL, `dir/STAMP.KIND.rest`, piece 0 is the time
      stamp and piece 1 the file kind; a last segment with one piece has
      no kind. */
  lemma GdeltUrl(dir: string, stamp: string, kind: string, rest: string)
    requires '.' !in stamp && '/' !in stamp && '.' !in kind && '/' !in kind && '/' !in rest
    ensures ExtractFilename(dir + "/" + (stamp + "." + kind + "." + rest), 0) == Some(stamp)
    ensures ExtractFilename(dir + "/" + (stamp + "." + kind + "." + rest), 1) == Some(kind)
    ensures ExtractFilename(dir + "/" + stamp, 1) == None
  {
    var name := stamp + "." + kind + "." + rest;
    LastSegmentOf(dir, name);
    assert name == stamp + ['.'] + (kind + ['.'] + rest);
    SplitAtFirst(stamp, '.', kind + ['.'] + rest);
    SplitAtFirst(kind, '.', rest);
    LastSegmentOf(dir, stamp);
    SplitNoSeparator(stamp, '.');
  }

  /** One line of `masterfilelist.txt`: size, hash and URL, each possibly
      missing. */
  datatype MasterLine = MasterLine(size: Option<string>, hash: Option<string>, url: Option<string>)

  /** A row of the saved master list: the line with its `type`,
      `datetime_str` and `datetime` columns. */
  datatype MasterEntry = MasterEntry(size: string, hash: string, url: string, kind: string, stamp: string, datetime: int)

  /** `dropna()` and then `type == 'gkg'`. */
  predicate IsGkg(line: MasterLine) {
    line.size.Some? && line.hash.Some? && line.url.Some? && ExtractFilename(line.url.value, 1) == Some("gkg")
  }

  /** The `datetime_str` column: piece 0 of a kept line's URL. */
  function StampOf(line: MasterLine): string
    requires IsGkg(line)
  {
    ExtractFilename(line.url.value, 0).value
  }

  /** A kept line whose time stamp `pd.to_datetime` cannot parse. */
  predicate Unparsed(line: MasterLine, toDatetime: string -> Option<int>) {
    IsGkg(line) && toDatetime(StampOf(line)).None?
  }

  function ToEntry(line: MasterLine, toDatetime: string -> Option<int>): MasterEntry
    requires IsGkg(line) && !Unparsed(line, toDatetime)
  {
    MasterEntry(line.size.value, line.hash.value, line.url.value, "gkg", StampOf(line), toDatetime(StampOf(line)).value)
  }

  /** The entries of kept lines whose stamps all parse, in order. */
  function Entries(kept: seq<MasterLine>, toDatetime: string -> Option<int>): (r: seq<MasterEntry>)
    requires forall i :: 0 <= i < |kept| ==> IsGkg(kept[i]) && !Unparsed(kept[i], toDatetime)
    ensures |r| == |kept|
    ensures forall i :: 0 <= i < |r| ==> r[i] == ToEntry(kept[i], toDatetime)
  {
    seq(|kept|, i requires 0 <= i < |kept| => ToEntry(kept[i], toDatetime))
  }

  /** Every entry built from a kept line carries its URL's stamp and kind
      and the datetime parsed from the stamp. */
  lemma EntryShape(line: MasterLine, toDatetime: string -> Option<int>)
    requires IsGkg(line) && !Unparsed(line, toDatetime)
    ensures var e := ToEntry(line, toDatetime);
            && e.kind == "gkg"
            && ExtractFilename(e.url, 1) == Some("gkg")
            && ExtractFilename(e.url, 0) == Some(e.stamp)
            && toDatetime(e.stamp) == Some(e.datetime)
  {
  }

  /** An unparsable stamp among the kept lines is one among all lines. */
  lemma UnparsedKept(lines: seq<MasterLine>, toDatetime: string -> Option<int>)
    ensures (exists line :: line in Filter(IsGkg, lines) && Unparsed(line, toDatetime)) <==>
            (exists line :: line in lines && Unparsed(line, toDatetime))
  {
    var kept := Filter(IsGkg, lines);
    if line :| line in lines && Unparsed(line, toDatetime) {
      var k := IndexIn(lines, line);
      assert line in kept;
    }
  }

  /** `update_master_file` after the download: the complete `gkg` lines in
      list order, each with its time stamp and the datetime parsed from it.
      `toDatetime` stands for `pd.to_datetime` on one stamp, `None` where it
      raises; converting the column raises on the first unparsable stamp. */
  function UpdateMaster(lines: seq<MasterLine>, toDatetime: string -> Option<int>): (r: Result<seq<MasterEntry>>)
    ensures r.Failure? <==> exists line :: line in lines && Unparsed(line, toDatetime)
    ensures r.Failure? ==> r.error.kind == ValueError
    ensures r.Success? ==> |r.value| == Count(IsGkg, lines)
    ensures r.Success? ==> forall i :: 0 <= i < |r.value| ==>
              && r.value[i].kind == "gkg"
              && ExtractFilename(r.value[i].url, 1) == Some("gkg")
              && ExtractFilename(r.value[i].url, 0) == Some(r.value[i].stamp)
              && toDatetime(r.value[i].stamp) == Some(r.value[i].datetime)
  {
    var kept := Filter(IsGkg, lines);
    FilterLength(IsGkg, lines);
    UnparsedKept(lines, toDatetime);
    if exists line :: line in kept && Unparsed(line, toDatetime) then
      Failure(Error(ValueError, "time stamp does not match format"))
    else
      assert forall i :: 0 <= i < |kept| ==> kept[i] in kept;
      var r := Entries(kept, toDatetime);
      assert forall i :: 0 <= i < |r| ==> r[i] == ToEntry(kept[i], toDatetime);
      forall i | 0 <= i < |r| {
        EntryShape(kept[i], toDatetime);
      }
      Success(r)
  }

  /** When every stamp parses, the list is built from the kept lines. */
  lemma UpdateMasterEntries(lines: seq<MasterLine>, toDatetime: string -> Option<int>)
    requires forall line :: line in lines ==> !Unparsed(line, toDatetime)
    ensures forall i :: 0 <= i < |Filter(IsGkg, lines)| ==>
              IsGkg(Filter(IsGkg, lines)[i]) && !Unparsed(Filter(IsGkg, lines)[i], toDatetime)
    ensures UpdateMaster(lines, toDatetime) == Success(Entries(Filter(IsGkg, lines), toDatetime))
  {
    UnparsedKept(lines, toDatetime);
  }

  /** When every stamp parses, exactly the complete `gkg` lines make it
      into the list. */
  lemma UpdateMasterKeeps(lines: seq<MasterLine>, toDatetime: string -> Option<int>)
    requires forall line :: line in lines ==> !Unparsed(line, toDatetime)
    ensures UpdateMaster(lines, toDatetime).Success?
    ensures forall line :: line in lines && IsGkg(line) ==> ToEntry(line, toDatetime) in UpdateMaster(lines, toDatetime).value
    ensures forall e :: e in UpdateMaster(lines, toDatetime).value ==>
              exists line :: line in lines && IsGkg(line) && e == ToEntry(line, toDatetime)
  {
    var kept := Filter(IsGkg, lines);
    UpdateMasterEntries(lines, toDatetime);
    EntriesCover(kept, toDatetime);
    assert forall line :: line in lines && IsGkg(line) ==> line in kept;
    assert forall line :: line in kept ==> line in lines && IsGkg(line) by {
      forall line | line in kept ensures line in lines && IsGkg(line) {
        var k := IndexIn(kept, line);
      }
    }
  }

  /** The entries of the kept lines are exactly the entries of each kept
      line. */
  lemma EntriesCover(kept: seq<MasterLine>, toDatetime: string -> Option<int>)
    requires forall i :: 0 <= i < |kept| ==> IsGkg(kept[i]) && !Unparsed(kept[i], toDatetime)
    ensures forall line :: line in kept ==> IsGkg(line) && !Unparsed(line, toDatetime)
    ensures forall line :: line in kept ==> ToEntry(line, toDatetime) in Entries(kept, toDatetime)
    ensures forall e :: e in Entries(kept, toDatetime) ==> exists line :: line in kept && e == ToEntry(line, toDatetime)
  {
    var r := Entries(kept, toDatetime);
    forall line | line in kept ensures IsGkg(line) && !Unparsed(line, toDatetime) && ToEntry(line, toDatetime) in r {
      var k := IndexIn(kept, line);
      assert r[k] == ToEntry(kept[k], toDatetime);
    }
    forall e | e in r ensures exists line :: line in kept && e == ToEntry(line, toDatetime) {
      var k :| 0 <= k < |r| && r[k] == e;
      assert kept[k] in kept;
    }
  }

  function IndexIn<T(==)>(xs: seq<T>, x: T): (k: nat)
    requires x in xs
    ensures k < |xs| && xs[k] == x
  {
    if xs[0] == x then 0 else 1 + IndexIn(xs[1..], x)
  }

  /** `(datetime > after) & (datetime <= before)`. */
  predicate InWindow(e: MasterEntry, after: int, before: int) {
    after < e.datetime <= before
  }

  /** `master_df.loc[datetime_mask]`: the entries inside the window, in
      list order. */
  function SelectWindow(entries: seq<MasterEntry>, after: int, before: int): (r: seq<MasterEntry>)
    ensures forall i :: 0 <= i < |r| ==> after < r[i].datetime <= before && r[i] in entries
    ensures forall e :: e in entries && after < e.datetime <= before ==> e in r
  {
    Filter((e: MasterEntry) => InWindow(e, after, before), entries)
  }

  /** Consecutive windows `(a, b]` and `(b, c]` share no entry and
      together select as many entries as `(a, c]`: with the downloaded
      list, whose datetimes compare as timestamps, runs over adjacent
      windows download each file once. */
  lemma {:induction false} WindowsTile(entries: seq<MasterEntry>, a: int, b: int, c: int)
    requires a <= b <= c
    ensures |SelectWindow(entries, a, c)| == |SelectWindow(entries, a, b)| + |SelectWindow(entries, b, c)|
    ensures forall e :: e in SelectWindow(entries, a, b) ==> e !in SelectWindow(entries, b, c)
    decreases |entries|
  {
    if |entries| > 0 {
      var rest := entries[1..];
      WindowsTile(rest, a, b, c);
      assert entries == [entries[0]] + rest;
      FilterAppend((e: MasterEntry) => InWindow(e, a, c), [entries[0]], rest);
      FilterAppend((e: MasterEntry) => InWindow(e, a, b), [entries[0]], rest);
      FilterAppend((e: MasterEntry) => InWindow(e, b, c), [entries[0]], rest);
    }
  }

  /** Where the master list comes from. */
  datatype MasterSource = Download | LocalCopy

  /** `if not isfile(path) or update_master`: the local copy is used only
      when it exists and `--no-update_master` is given. */
  function ChooseSource(localExists: bool, updateMaster: bool): (r: MasterSource)
    ensures r == LocalCopy <==> localExists && !updateMaster
  {
    if !localExists || updateMaster then Download else LocalCopy
  }

  /** `--update_master` defaults to true, so by default the list is always
      downloaded. */
  lemma DefaultDownloads(localExists: bool)
    ensures ChooseSource(localExists, true) == Download
  {
  }

  /** The URLs the download loop reads, in order. */
  function Downloads(entries: seq<MasterEntry>, after: int, before: int): (r: seq<string>)
    ensures |r| == |SelectWindow(entries, after, before)|
    ensures forall i :: 0 <= i < |r| ==> r[i] == SelectWindow(entries, after, before)[i].url
    ensures forall i :: 0 <= i < |r| ==> exists e :: e in entries && e.url == r[i] && after < e.datetime <= before
  {
    var sel := SelectWindow(entries, after, before);
    Map((e: MasterEntry) => e.url, sel)
  }

  /** The master list is published oldest first. */
  predicate Chronological(entries: seq<MasterEntry>) {
    forall i, j :: 0 <= i < j < |entries| ==> entries[i].datetime <= entries[j].datetime
  }

  /** On a chronological list, the window `(a, c]` is the window `(a, b]`
      followed by the window `(b, c]`. */
  lemma {:induction false} SelectWindowSplit(entries: seq<MasterEntry>, a: int, b: int, c: int)
    requires a <= b <= c
    requires Chronological(entries)
    ensures SelectWindow(entries, a, c) == SelectWindow(entries, a, b) + SelectWindow(entries, b, c)
    decreases |entries|
  {
    if |entries| > 0 {
      var e := entries[0];
      var rest := entries[1..];
      assert Chronological(rest) by {
        forall i, j | 0 <= i < j < |rest| ensures rest[i].datetime <= rest[j].datetime {
          assert rest[i] == entries[i + 1] && rest[j] == entries[j + 1];
        }
      }
      SelectWindowSplit(rest, a, b, c);
      if b < e.datetime {
        forall i | 0 <= i < |rest| ensures !InWindow(rest[i], a, b) {
          assert rest[i] == entries[i + 1];
        }
        FilterNone((x: MasterEntry) => InWindow(x, a, b), rest);
      }
    }
  }

  /** Splitting a date range into two consecutive runs downloads the same
      files in the same order as one run over the whole range. */
  lemma DownloadsSplit(entries: seq<MasterEntry>, a: int, b: int, c: int)
    requires a <= b <= c
    requires Chronological(entries)
    ensures Downloads(entries, a, c) == Downloads(entries, a, b) + Downloads(entries, b, c)
  {
    SelectWindowSplit(entries, a, b, c);
    MapAppend((e: MasterEntry) => e.url, SelectWindow(entries, a, b), SelectWindow(entries, b, c));
  }
}

/** The processed-file logs: `identify_new_files` of `patent_cleaning.py`
    and `journal_cleaning.py` (`s1[~s1.isin(s2)]`), the new-file list of
    `gdelt_append.py`, and `append_processed_files_to_log`. Directory
    listings and the log files are given as sequences of paths. */
module Ledger {
  import opened Seqs

  /** The listed files that the log does not mention, in listing order. */
  function NewFiles(listed: seq<string>, log: seq<string>): (r: seq<string>)
    ensures |r| <= |listed|
    ensures forall f :: f in r <==> f in listed && f !in log
  {
    Filter((f: string) => f !in log, listed)
  }

  /** `pd.concat([log, files])`: the old entries, then the new ones. */
  function AppendLog(log: seq<string>, files: seq<string>): (r: seq<string>)
    ensures |r| == |log| + |files|
    ensures r[..|log|] == log && r[|log|..] == files
  {
    log + files
  }

  /** Selection keeps listing order: the new files of a listing split in
      two are the new files of the first part followed by those of the
      second. */
  lemma NewFilesInOrder(a: seq<string>, b: seq<string>, log: seq<string>)
    ensures NewFiles(a + b, log) == NewFiles(a, log) + NewFiles(b, log)
  {
    FilterAppend((f: string) => f !in log, a, b);
  }

  /** Against an empty log every listed file is new. */
  lemma EmptyLogListsAll(listed: seq<string>)
    ensures NewFiles(listed, []) == listed
  {
    FilterAll((f: string) => f !in [], listed);
  }

  /** Once the new files are appended to the log, the same listing has
      nothing new: a second run processes nothing twice. */
  lemma NothingNewAfterAppend(listed: seq<string>, log: seq<string>)
    ensures NewFiles(listed, AppendLog(log, NewFiles(listed, log))) == []
  {
    var log2 := AppendLog(log, NewFiles(listed, log));
    forall i | 0 <= i < |listed| ensures listed[i] in log2 {
      if listed[i] !in log {
        assert listed[i] in NewFiles(listed, log);
      }
    }
    FilterNone((f: string) => f !in log2, listed);
  }

  /** Selecting twice against the same log selects nothing more. */
  lemma NewFilesIdempotent(listed: seq<string>, log: seq<string>)
    ensures NewFiles(NewFiles(listed, log), log) == NewFiles(listed, log)
  {
    var r := NewFiles(listed, log);
    FilterAll((f: string) => f !in log, r);
  }

  /** Appending one file at a time, as `clean_journal` does per file read. */
  function AppendEach(log: seq<string>, files: seq<string>): seq<string>
    decreases |files|
  {
    if |files| == 0 then log else AppendEach(AppendLog(log, [files[0]]), files[1..])
  }

  /** File-by-file appends leave the same log as one bulk append. */
  lemma {:induction false} AppendEachIsBulk(log: seq<string>, files: seq<string>)
    ensures AppendEach(log, files) == AppendLog(log, files)
    decreases |files|
  {
    if |files| > 0 {
      AppendEachIsBulk(log + [files[0]], files[1..]);
      assert log + [files[0]] + files[1..] == log + files;
    }
  }
}

/** The command-line decision of `lens_patent_ingestion.py` and
    `lens_api_reader.py`: which of the numbered argument errors is
    reported, which date window is queried and which save target is used.
    argparse itself is not modelled: `--before`/`--after` arrive already
    parsed as dates, and `argCount` is the length of `sys.argv[1:]`. */
module LensCli {
  import opened Wrappers
  import opened Calendar

  datatype Args = Args(argCount: nat, month: bool, before: Option<Date>, after: Option<Date>, save: Option<string>)

  /** Parsed dates are real calendar dates. */
  predicate ValidArgs(a: Args) {
    && (a.before.Some? ==> ValidDate(a.before.value))
    && (a.after.Some? ==> ValidDate(a.after.value))
  }

  /** What `main` ends up doing: argparse refusing an option the parser
      does not define (usage message, exit status 2), print error `code`
      and return, stop on an exception, or ingest the window
      `start`..`end` saving to `save`. */
  datatype Outcome = Unrecognized | Rejected(code: nat) | Crashed(error: Error) | Ingest(start: string, end: string, save: string)

  /** The condition behind each numbered message of `invalid_args`, stated
      on its own; error 4 exists only where a list of valid save options
      is configured. */
  predicate Violates(a: Args, valid: Option<seq<string>>, code: nat) {
    match code
    case 1 => a.argCount == 0
    case 2 => a.month && (a.before.Some? || a.after.Some?)
    case 3 => a.before.Some? != a.after.Some?
    case 4 => valid.Some? && a.save.Some? && a.save.value !in valid.value
    case _ => false
  }

  /** The checks of `main`, in source order. The reported error is the
      smallest-numbered condition that holds, and none is reported exactly
      when no condition holds. */
  function ArgsError(a: Args, valid: Option<seq<string>>): (r: Option<nat>)
    ensures r.Some? ==> 1 <= r.value <= 4 && Violates(a, valid, r.value)
    ensures r.Some? ==> forall k :: 1 <= k < r.value ==> !Violates(a, valid, k)
    ensures r.None? <==> !Violates(a, valid, 1) && !Violates(a, valid, 2) && !Violates(a, valid, 3) && !Violates(a, valid, 4)
    ensures valid.None? ==> r != Some(4)
  {
    if a.argCount == 0 then Some(1)
    else if (if a.month then 1 else 0) + (if a.after.Some? || a.before.Some? then 1 else 0) > 1 then Some(2)
    else if (a.before.Some? && a.after.None?) || (a.before.None? && a.after.Some?) then Some(3)
    else if valid.Some? && a.save.Some? && a.save.value !in valid.value then Some(4)
    else None
  }

  /** Accepted arguments, described directly: at least one argument, both
      range ends or neither, and no range together with `--month`. */
  lemma AcceptedArgs(a: Args)
    ensures ArgsError(a, None).None? <==>
              a.argCount > 0 && (a.before.Some? <==> a.after.Some?) && !(a.month && a.before.Some?)
  {
    if ArgsError(a, None).None? {
      assert !Violates(a, None, 1) && !Violates(a, None, 2) && !Violates(a, None, 3);
    }
  }

  /** `set_save_option`: a valid `--save` overrides the configured default. */
  function SaveTarget(a: Args, default: string): (r: string)
    ensures a.save.None? ==> r == default
    ensures a.save.Some? ==> r == a.save.value
  {
    if a.save.Some? then a.save.value else default
  }

  /** `"from: " + start_d` when `start_d` is a `datetime.date`. */
  const DateConcat := Error(TypeError, "can only concatenate str (not \"datetime.date\") to str")

  /** `main` of `lens_patent_ingestion.py` as written (`today` stands for
      `date.today()`): an explicit range leaves `start_d` a date object, and
      the first progress line fails on it. */
  function PatentMainAsWritten(a: Args, valid: seq<string>, default: string, today: Date): (r: Outcome)
    requires ValidArgs(a) && ValidDate(today)
    ensures r.Rejected? <==> ArgsError(a, Some(valid)).Some?
    ensures r.Rejected? ==> r.code == ArgsError(a, Some(valid)).value
    ensures r.Ingest? ==> r.save == SaveTarget(a, default) && a.before.None?
  {
    match ArgsError(a, Some(valid))
    case Some(code) => Rejected(code)
    case None =>
      if a.before.Some? && a.after.Some? then Crashed(DateConcat)
      else match GetPrevMonth(today)
        case Failure(e) => Crashed(e)
        case Success((s, e)) => Ingest(s, e, SaveTarget(a, default))
  }

  /** The same with the window rendered as `YYYY-MM-DD` strings, as the
      query templates expect. */
  function PatentMain(a: Args, valid: seq<string>, default: string, today: Date): (r: Outcome)
    requires ValidArgs(a) && ValidDate(today)
    ensures r.Rejected? <==> ArgsError(a, Some(valid)).Some?
    ensures r.Rejected? ==> r.code == ArgsError(a, Some(valid)).value
    ensures r.Ingest? ==> r.save == SaveTarget(a, default)
    ensures r.Ingest? && a.after.Some? ==> r.start == IsoFormat(a.after.value)
    ensures r.Ingest? && a.before.Some? ==> r.end == IsoFormat(a.before.value)
  {
    match ArgsError(a, Some(valid))
    case Some(code) => Rejected(code)
    case None =>
      if a.before.Some? && a.after.Some? then Ingest(IsoFormat(a.after.value), IsoFormat(a.before.value), SaveTarget(a, default))
      else match GetPrevMonth(today)
        case Failure(e) => Crashed(e)
        case Success((s, e)) => Ingest(s, e, SaveTarget(a, default))
  }

  /** `main` of `lens_api_reader.py` as written: its parser defines no
      `--save`, so argparse refuses one before any check; then errors 1 to
      3 only, and the reader always writes locally. */
  function ReaderMainAsWritten(a: Args, today: Date): (r: Outcome)
    requires ValidArgs(a) && ValidDate(today)
    ensures r == Unrecognized <==> a.save.Some?
    ensures r.Rejected? <==> a.save.None? && ArgsError(a, None).Some?
    ensures r.Rejected? ==> 1 <= r.code <= 3
    ensures r.Ingest? ==> a.before.None? && a.after.None? && r.save == "local"
  {
    if a.save.Some? then Unrecognized
    else match ArgsError(a, None)
    case Some(code) => Rejected(code)
    case None =>
      if a.before.Some? && a.after.Some? then Crashed(DateConcat)
      else match GetPrevMonth(today)
        case Failure(e) => Crashed(e)
        case Success((s, e)) => Ingest(s, e, "local")
  }

  /** The reader with the window rendered as strings. */
  function ReaderMain(a: Args, today: Date): (r: Outcome)
    requires ValidArgs(a) && ValidDate(today)
    ensures r == Unrecognized <==> a.save.Some?
    ensures r.Rejected? <==> a.save.None? && ArgsError(a, None).Some?
    ensures r.Ingest? ==> r.save == "local"
    ensures r.Ingest? && a.after.Some? ==> r.start == IsoFormat(a.after.value) && r.end == IsoFormat(a.before.value)
  {
    if a.save.Some? then Unrecognized
    else match ArgsError(a, None)
    case Some(code) => Rejected(code)
    case None =>
      if a.before.Some? && a.after.Some? then Ingest(IsoFormat(a.after.value), IsoFormat(a.before.value), "local")
      else match GetPrevMonth(today)
        case Failure(e) => Crashed(e)
        case Success((s, e)) => Ingest(s, e, "local")
  }

  /** Without `--save`, both scripts take the same decision about errors
      and the window. */
  lemma ReaderAgreesWithPatent(a: Args, valid: seq<string>, default: string, today: Date)
    requires ValidArgs(a) && ValidDate(today) && a.save.None?
    ensures ReaderMain(a, today).Rejected? == PatentMain(a, valid, default, today).Rejected?
    ensures ReaderMain(a, today).Ingest? == PatentMain(a, valid, default, today).Ingest?
    ensures ReaderMain(a, today).Ingest? ==>
              && ReaderMain(a, today).start == PatentMain(a, valid, default, today).start
              && ReaderMain(a, today).end == PatentMain(a, valid, default, today).end
  {
    assert ArgsError(a, None) == ArgsError(a, Some(valid));
  }

  /** Without a range, the window is the month before `today`: it starts
      on day 1 and its end is the day before the first of today's month. */
  lemma DefaultWindowIsPreviousMonth(a: Args, valid: seq<string>, default: string, today: Date)
    requires ValidArgs(a) && ValidDate(today) && ArgsError(a, Some(valid)).None?
    requires a.before.None? && !(today.year == MinYear && today.month == 1)
    ensures var r := PatentMain(a, valid, default, today);
            var (start, end) := PrevMonth(today).value;
            && r.Ingest?
            && r.start == IsoFormat(start) && r.end == IsoFormat(end)
            && start.day == 1 && NextDay(end) == Success(Date(today.year, today.month, 1))
  {
  }

  /** The discrepancy: every accepted explicit range stops with a
      TypeError before any request as written (in the reader, once
      argparse has accepted the options), and is ingested once the dates
      are rendered. */
  lemma ExplicitRangeCrashes(a: Args, valid: seq<string>, default: string, today: Date)
    requires ValidArgs(a) && ValidDate(today) && ArgsError(a, Some(valid)).None?
    requires a.before.Some?
    ensures PatentMainAsWritten(a, valid, default, today) == Crashed(DateConcat)
    ensures a.save.None? ==> ReaderMainAsWritten(a, today) == Crashed(DateConcat)
    ensures PatentMain(a, valid, default, today) ==
            Ingest(IsoFormat(a.after.value), IsoFormat(a.before.value), SaveTarget(a, default))
  {
    assert !Violates(a, Some(valid), 3);
    assert ArgsError(a, None).None?;
  }

  /** On the default window the as-written and corrected scripts agree. */
  lemma DefaultWindowUnchanged(a: Args, valid: seq<string>, default: string, today: Date)
    requires ValidArgs(a) && ValidDate(today) && a.before.None? && a.after.None?
    ensures PatentMainAsWritten(a, valid, default, today) == PatentMain(a, valid, default, today)
    ensures ReaderMainAsWritten(a, today) == ReaderMain(a, today)
  {
  }
}

/** The creator's entry points: the day-stepping loops, the latest-year
    scan of the root folder, the cleanup defaults and the end date of a run.
    The clock is the `now` of the environment, read once per run; listing
    the root folder is an input. */
module Creator {
  import opened Dates
  import opened Text
  import opened Settings
  import opened Layout
  import opened Policy
  import opened Ranges
  import opened Calendar

  /** An entry of the root folder: its name and whether it is a directory. */
  datatype Entry = Entry(name: string, isDir: bool)

  /** The modelled ways a run ends with an exception: stepping past
      9999-12-31 (OverflowError), and building Dec 31 of a year outside
      1..9999 (ValueError, or OverflowError for a year of 2^31 or more). */
  datatype Failure = DateOverflow | YearOutOfRange(year: int)

  datatype Status = Finished | Raised(failure: Failure)

  /** The first date `clean_empty_files` checks by default. */
  const CleanupStart := Date(2000, 1, 1)

  /** A directory whose name is all digits (`x.is_dir() and x.name.isdigit()`). */
  predicate IsYearDir(e: Entry) {
    e.isDir && e.name != [] && AllDigits(e.name)
  }

  /** The largest year named by a directory of `entries`, if any. */
  function MaxYearDir(entries: seq<Entry>): (r: Option<nat>)
    ensures r.None? <==> forall i :: 0 <= i < |entries| ==> !IsYearDir(entries[i])
    ensures r.Some? ==> exists i :: 0 <= i < |entries| && IsYearDir(entries[i]) && ParseDigits(entries[i].name) == r.value
    ensures r.Some? ==> forall i :: 0 <= i < |entries| && IsYearDir(entries[i]) ==> ParseDigits(entries[i].name) <= r.value
  {
    if entries == [] then None
    else
      var rest := MaxYearDir(entries[1..]);
      var e := entries[0];
      if !IsYearDir(e) then
        assert forall i :: 1 <= i < |entries| ==> entries[i] == entries[1..][i - 1];
        rest
      else
        var y := ParseDigits(e.name);
        assert forall i :: 1 <= i < |entries| ==> entries[i] == entries[1..][i - 1];
        match rest
        case None => Some(y)
        case Some(m) => if m < y then Some(y) else Some(m)
  }

  /** `_find_latest_year`: the largest all-digit directory name, or the
      current year when there is none. */
  function LatestYear(entries: seq<Entry>, currentYear: int): (y: int)
    ensures (forall i :: 0 <= i < |entries| ==> !IsYearDir(entries[i])) ==> y == currentYear
    ensures forall i :: 0 <= i < |entries| && IsYearDir(entries[i]) ==> ParseDigits(entries[i].name) <= y
    ensures (exists i :: 0 <= i < |entries| && IsYearDir(entries[i])) ==>
      exists i :: 0 <= i < |entries| && IsYearDir(entries[i]) && ParseDigits(entries[i].name) == y
  {
    match MaxYearDir(entries)
    case None => currentYear
    case Some(m) => m
  }

  /** `create_files_for_date` (and the inner loop of `clean_empty_files`):
      one step per category, in the creator's order. */
  method ProcessDate(mode: Mode, env: Env, fs: FileSystem, d: Date) returns (r: FileSystem)
    requires ValidDate(d)
    ensures r == ForCategories(mode, env, fs, d, Categories)
  {
    r := fs;
    var i := 0;
    while i < |Categories|
      invariant 0 <= i <= |Categories|
      invariant r == ForCategories(mode, env, fs, d, Categories[..i])
    {
      assert Categories[..i + 1] == Categories[..i] + [Categories[i]];
      ForCategoriesSnoc(mode, env, fs, d, Categories[..i], Categories[i]);
      r := Step(mode, env, r, d, Categories[i]);
      i := i + 1;
    }
    assert Categories[..|Categories|] == Categories;
  }

  /** Moving one element from the front of the rest to the end of the prefix. */
  lemma ShiftFront<T>(done: seq<T>, x: T, rest: seq<T>, all: seq<T>)
    requires done + ([x] + rest) == all
    ensures (done + [x]) + rest == all
  {
    assert (done + [x]) + rest == done + ([x] + rest);
  }

  /** The loop shared by `create_files_for_range` and `clean_empty_files`:
      while the current date-time is at or before `end`, process its date
      and add one day. Adding a day to 9999-12-31 raises, after that date
      has been processed. */
  method ProcessRange(mode: Mode, env: Env, fs: FileSystem, start: Moment, end: Moment)
    returns (r: FileSystem, overflowed: bool)
    requires ValidMoment(start)
    ensures r == ForDates(mode, env, fs, DatesInRange(start, end))
    ensures overflowed <==> MaxDate in DatesInRange(start, end)
  {
    r := fs;
    overflowed := false;
    var current := start;
    ghost var done: seq<Date> := [];
    while AtOrBefore(current, end)
      invariant ValidMoment(current) && current.micros == start.micros
      invariant done + DatesInRange(current, end) == DatesInRange(start, end)
      invariant AllValid(done) && MaxDate !in done
      invariant r == ForDates(mode, env, fs, done)
      decreases MaxYear - current.date.year, 12 - current.date.month, 31 - current.date.day
    {
      r := ProcessDate(mode, env, r, current.date);
      ForDatesSnoc(mode, env, fs, done, current.date);
      RangeUnfold(current, end);
      if current.date == MaxDate {
        done := done + [current.date];
        overflowed := true;
        break;
      }
      var next := Moment(NextDay(current.date), current.micros);
      ShiftFront(done, current.date, DatesInRange(next, end), DatesInRange(start, end));
      done := done + [current.date];
      current := next;
    }
    if !overflowed {
      assert done + [] == done;
    }
  }

  /** `datetime(y, 12, 31)` for a year Python accepts: midnight on Dec 31. */
  function YearEnd(y: int): (e: Moment)
    requires MinYear <= y <= MaxYear
    ensures ValidMoment(e) && e.date.year == y && e.micros == 0
    ensures forall d :: ValidDate(d) && d.year == y ==> AtOrBefore(Midnight(d), e)
  {
    Midnight(Date(y, 12, 31))
  }

  /** `datetime(y, 12, 31)` succeeds exactly for the years 1..9999, and then
      gives the date of `YearEnd`. */
  lemma YearEndMade(y: int)
    ensures MakeDate(y, 12, 31).Some? <==> MinYear <= y <= MaxYear
    ensures MinYear <= y <= MaxYear ==> MakeDate(y, 12, 31) == Some(YearEnd(y).date)
  {
  }

  /** `clean_empty_files`: the start defaults to 2000-01-01 and the end to
      Dec 31 of the latest year, which raises before anything is deleted when
      that year is outside 1..9999. Cleaning never adds or rewrites a file,
      and cleaning the same range again changes nothing. */
  method CleanEmptyFiles(env: Env, fs: FileSystem, start: Option<Moment>, end: Option<Moment>, listing: seq<Entry>)
    returns (r: FileSystem, status: Status)
    requires start.Some? ==> ValidMoment(start.value)
    ensures var y := LatestYear(listing, env.now.date.year);
      end.None? && !(MinYear <= y <= MaxYear) ==> r == fs && status == Raised(YearOutOfRange(y))
    ensures var y := LatestYear(listing, env.now.date.year);
      end.Some? || MinYear <= y <= MaxYear ==>
        var ds := DatesInRange(if start.Some? then start.value else Midnight(CleanupStart),
                               if end.Some? then end.value else YearEnd(y));
        && r == ForDates(Cleaning, env, fs, ds)
        && (status == Finished <==> MaxDate !in ds)
        && (status != Finished ==> status == Raised(DateOverflow))
        && ForDates(Cleaning, env, r, ds) == r
    ensures Shrunk(r, fs)
  {
    var from := if start.Some? then start.value else Midnight(CleanupStart);
    var to: Moment;
    if end.Some? {
      to := end.value;
    } else {
      var y := LatestYear(listing, env.now.date.year);
      YearEndMade(y);
      match MakeDate(y, 12, 31)
      case None =>
        return fs, Raised(YearOutOfRange(y));
      case Some(last) =>
        to := Midnight(last);
    }
    var overflowed;
    r, overflowed := ProcessRange(Cleaning, env, fs, from, to);
    status := if overflowed then Raised(DateOverflow) else Finished;
    CleaningShrinks(env, fs, DatesInRange(from, to));
    PassIdempotent(Cleaning, env, fs, DatesInRange(from, to));
  }

  /** `create_files_for_range`: files already present are kept, and every
      visited date gets a file for each category whose creation setting is on. */
  method CreateFilesForRange(env: Env, fs: FileSystem, start: Moment, end: Moment)
    returns (r: FileSystem, status: Status)
    requires ValidMoment(start)
    ensures var ds := DatesInRange(start, end);
      && r == ForDates(Creating, env, fs, ds)
      && (status == Finished <==> MaxDate !in ds)
      && (status != Finished ==> status == Raised(DateOverflow))
    ensures fs.Keys <= r.Keys
    ensures forall d, c :: d in DatesInRange(start, end) && CreationAllowed(env.cfg, env.now.date, d, c) ==>
      FilePath(env.root, d, c) in r
    ensures forall d, c :: ValidDate(d) && FilePath(env.root, d, c) !in fs && !CreationAllowed(env.cfg, env.now.date, d, c) ==>
      FilePath(env.root, d, c) !in r
  {
    var overflowed;
    r, overflowed := ProcessRange(Creating, env, fs, start, end);
    status := if overflowed then Raised(DateOverflow) else Finished;
    var ds := DatesInRange(start, end);
    CreatingGrows(env, fs, ds);
    forall d, c | d in ds && CreationAllowed(env.cfg, env.now.date, d, c)
      ensures FilePath(env.root, d, c) in r
    {
      var i :| 0 <= i < |ds| && ds[i] == d;
      CreatingFillsAllowed(env, fs, ds, i, c);
    }
    forall d, c | ValidDate(d) && FilePath(env.root, d, c) !in fs && !CreationAllowed(env.cfg, env.now.date, d, c)
      ensures FilePath(env.root, d, c) !in r
    {
      CreatingOnlyAllowed(env, fs, ds, d, c);
    }
  }

  /** The end of the creation range in `main`: Dec 31 of the latest year,
      moved to Dec 31 of the current year when it lies before the current
      date-time. */
  function CreationEnd(latest: int, now: Moment): (e: Moment)
    requires MinYear <= latest <= MaxYear && ValidMoment(now)
    ensures ValidMoment(e) && e.micros == 0 && e.date.month == 12 && e.date.day == 31
    ensures e.date.year == if latest < now.date.year then now.date.year else latest
  {
    var end := YearEnd(latest);
    if !AtOrBefore(now, end) then YearEnd(now.date.year) else end
  }

  /** Every date from today up to the day before the end is created, whatever
      the time of day. */
  lemma CreationCovers(latest: int, now: Moment, d: Date)
    requires MinYear <= latest <= MaxYear && ValidMoment(now) && ValidDate(d)
    requires !Before(d, now.date) && Before(d, CreationEnd(latest, now).date)
    ensures d in DatesInRange(now, CreationEnd(latest, now))
  {
    RangeComplete(now, CreationEnd(latest, now), d);
  }

  /** The last day of the creation range is visited only when the run
      starts exactly at midnight: the loop compares today's time of day
      with midnight on Dec 31. In particular a run on Dec 31 after
      midnight, with no later year folder, creates nothing. */
  lemma CreationLastDay(latest: int, now: Moment)
    requires MinYear <= latest <= MaxYear && ValidMoment(now)
    ensures var e := CreationEnd(latest, now);
      e.date in DatesInRange(now, e) <==> now.micros == 0
  {
    var e := CreationEnd(latest, now);
    RangeShape(now, e);
    if now.micros == 0 {
      assert !Before(e.date, now.date);
      RangeComplete(now, e, e.date);
    }
  }

  lemma DecemberLastRunCreatesNothing(latest: int, now: Moment)
    requires MinYear <= latest <= now.date.year && ValidMoment(now)
    requires now.date.month == 12 && now.date.day == 31 && now.micros > 0
    ensures DatesInRange(now, CreationEnd(latest, now)) == []
  {
    RangeShape(now, CreationEnd(latest, now));
  }

  /** `main`: find the latest year, clean the default range, then create
      notes from now until the creation end. An exception ends the run with
      the files as they are at that point. */
  method Run(env: Env, fs: FileSystem, listing: seq<Entry>) returns (r: FileSystem, status: Status)
    requires ValidMoment(env.now)
    ensures var y := LatestYear(listing, env.now.date.year);
      !(MinYear <= y <= MaxYear) ==> r == fs && status == Raised(YearOutOfRange(y))
    ensures var y := LatestYear(listing, env.now.date.year);
      MinYear <= y <= MaxYear ==>
        var cleanDates := DatesInRange(Midnight(CleanupStart), YearEnd(y));
        var cleaned := ForDates(Cleaning, env, fs, cleanDates);
        var createDates := DatesInRange(env.now, CreationEnd(y, env.now));
        && (MaxDate in cleanDates ==> r == cleaned && status == Raised(DateOverflow))
        && (MaxDate !in cleanDates ==>
              && r == ForDates(Creating, env, cleaned, createDates)
              && (status == Finished <==> MaxDate !in createDates)
              && (status != Finished ==> status == Raised(DateOverflow)))
  {
    var cleaned;
    cleaned, status := CleanEmptyFiles(env, fs, None, None, listing);
    if status != Finished {
      return cleaned, status;
    }
    var latest := LatestYear(listing, env.now.date.year);
    r, status := CreateFilesForRange(env, cleaned, env.now, CreationEnd(latest, env.now));
  }
}

/** The creator's passes over a date range: for each date and each of the
    five categories in order, one creation step (`create_files_for_range`)
    or one deletion check (`clean_empty_files`), and the properties of whole
    passes that follow from what one step touches. */
module Calendar {
  import opened Dates
  import opened Settings
  import opened Layout
  import opened Policy
  import opened Ranges

  datatype Mode = Creating | Cleaning

  /** The settings, the calendar root and the clock reading of one run. */
  datatype Env = Env(cfg: Config, root: Path, now: Moment)

  /** One (date, category) step of a pass. */
  function Step(mode: Mode, env: Env, fs: FileSystem, d: Date, c: Category): FileSystem
    requires ValidDate(d)
  {
    match mode
    case Creating => CreateFile(env.cfg, env.now.date, env.root, fs, d, c)
    case Cleaning => DeleteEmptyPastFile(env.cfg, env.now.date, fs, FilePath(env.root, d, c), d, c)
  }

  /** The steps for one date over the categories `cs`, in order. */
  function ForCategories(mode: Mode, env: Env, fs: FileSystem, d: Date, cs: seq<Category>): FileSystem
    requires ValidDate(d)
  {
    if cs == [] then fs
    else Step(mode, env, ForCategories(mode, env, fs, d, cs[..|cs| - 1]), d, cs[|cs| - 1])
  }

  /** The steps for the dates `ds`, in order, each over all five categories. */
  function ForDates(mode: Mode, env: Env, fs: FileSystem, ds: seq<Date>): FileSystem
    requires AllValid(ds)
  {
    if ds == [] then fs
    else ForCategories(mode, env, ForDates(mode, env, fs, ds[..|ds| - 1]), ds[|ds| - 1], Categories)
  }

  lemma ForCategoriesSnoc(mode: Mode, env: Env, fs: FileSystem, d: Date, cs: seq<Category>, c: Category)
    requires ValidDate(d)
    ensures ForCategories(mode, env, fs, d, cs + [c]) == Step(mode, env, ForCategories(mode, env, fs, d, cs), d, c)
  {
    assert (cs + [c])[..|cs|] == cs;
  }

  lemma ForDatesSnoc(mode: Mode, env: Env, fs: FileSystem, ds: seq<Date>, d: Date)
    requires AllValid(ds) && ValidDate(d)
    ensures AllValid(ds + [d])
    ensures ForDates(mode, env, fs, ds + [d]) == ForCategories(mode, env, ForDates(mode, env, fs, ds), d, Categories)
  {
    assert (ds + [d])[..|ds|] == ds;
  }

  /** The two file systems hold the same thing at `p`. */
  predicate AgreeAt(fs: FileSystem, fs': FileSystem, p: Path) {
    (p in fs <==> p in fs') && (p in fs ==> fs[p] == fs'[p])
  }

  /** The four conditions under which `_delete_empty_past_file` removes a note. */
  predicate DeletionDue(env: Env, fs: FileSystem, d: Date, c: Category)
    requires ValidDate(d)
  {
    var p := FilePath(env.root, d, c);
    p in fs && Before(d, env.now.date) && FlagOn(env.cfg, DeletionSetting(c)) && TitleOnly(fs[p], d, c)
  }

  /** A step for (d, c) would change nothing: for cleaning, the note is not
      due; for creation, the gate is closed or the note exists and, if due,
      already holds exactly the current title. */
  predicate Settled(mode: Mode, env: Env, fs: FileSystem, d: Date, c: Category)
    requires ValidDate(d)
  {
    match mode
    case Cleaning => !DeletionDue(env, fs, d, c)
    case Creating =>
      var p := FilePath(env.root, d, c);
      !CreationAllowed(env.cfg, env.now.date, d, c)
      || (p in fs && (DeletionDue(env, fs, d, c) ==> fs[p] == Title(d, c)))
  }

  /** A step changes nothing outside its own note. */
  lemma StepLocal(mode: Mode, env: Env, fs: FileSystem, d: Date, c: Category, q: Path)
    requires ValidDate(d) && q != FilePath(env.root, d, c)
    ensures AgreeAt(Step(mode, env, fs, d, c), fs, q)
  {
  }

  /** After its step, a (date, category) pair is settled. */
  lemma StepSettles(mode: Mode, env: Env, fs: FileSystem, d: Date, c: Category)
    requires ValidDate(d)
    ensures Settled(mode, env, Step(mode, env, fs, d, c), d, c)
  {
    var p := FilePath(env.root, d, c);
    if mode == Creating && CreationAllowed(env.cfg, env.now.date, d, c) && DeletionDue(env, fs, d, c) {
      CreateFileRewritesStale(env.cfg, env.now.date, env.root, fs, d, c);
    }
  }

  lemma NotDueDeletionIsIdentity(env: Env, fs: FileSystem, d: Date, c: Category)
    requires ValidDate(d) && !DeletionDue(env, fs, d, c)
    ensures DeleteEmptyPastFile(env.cfg, env.now.date, fs, FilePath(env.root, d, c), d, c) == fs
  {
    var p := FilePath(env.root, d, c);
    if p !in fs {
      assert fs - {p} == fs;
    }
  }

  /** A settled pair's step is the identity. */
  lemma SettledStepIsIdentity(mode: Mode, env: Env, fs: FileSystem, d: Date, c: Category)
    requires ValidDate(d) && Settled(mode, env, fs, d, c)
    ensures Step(mode, env, fs, d, c) == fs
  {
    var p := FilePath(env.root, d, c);
    if mode == Cleaning {
      NotDueDeletionIsIdentity(env, fs, d, c);
    } else if CreationAllowed(env.cfg, env.now.date, d, c) {
      if DeletionDue(env, fs, d, c) {
        CreateFileRewritesStale(env.cfg, env.now.date, env.root, fs, d, c);
        assert fs[p := Title(d, c)] == fs;
      } else {
        NotDueDeletionIsIdentity(env, fs, d, c);
      }
    }
  }

  /** Being settled depends only on what the note's own path holds. */
  lemma SettledAt(mode: Mode, env: Env, fs: FileSystem, fs': FileSystem, d: Date, c: Category)
    requires ValidDate(d) && AgreeAt(fs, fs', FilePath(env.root, d, c))
    ensures Settled(mode, env, fs, d, c) <==> Settled(mode, env, fs', d, c)
  {
  }

  /** A step for another pair leaves a settled pair settled. */
  lemma OtherStepKeepsSettled(mode: Mode, env: Env, fs: FileSystem, d: Date, c: Category, d': Date, c': Category)
    requires ValidDate(d) && ValidDate(d') && (d, c) != (d', c')
    requires Settled(mode, env, fs, d, c)
    ensures Settled(mode, env, Step(mode, env, fs, d', c'), d, c)
  {
    if FilePath(env.root, d, c) == FilePath(env.root, d', c') {
      FilePathInjective(env.root, d, c, d', c');
    }
    StepLocal(mode, env, fs, d', c', FilePath(env.root, d, c));
    SettledAt(mode, env, fs, Step(mode, env, fs, d', c'), d, c);
  }

  lemma {:induction false} ForCategoriesSettles(mode: Mode, env: Env, fs: FileSystem, d: Date, cs: seq<Category>)
    requires ValidDate(d)
    ensures forall c :: c in cs ==> Settled(mode, env, ForCategories(mode, env, fs, d, cs), d, c)
  {
    if cs != [] {
      var prefix, last := cs[..|cs| - 1], cs[|cs| - 1];
      var before := ForCategories(mode, env, fs, d, prefix);
      ForCategoriesSettles(mode, env, fs, d, prefix);
      StepSettles(mode, env, before, d, last);
      forall c | c in cs
        ensures Settled(mode, env, ForCategories(mode, env, fs, d, cs), d, c)
      {
        if c != last {
          assert c in prefix by {
            var i :| 0 <= i < |cs| && cs[i] == c;
            assert prefix[i] == c;
          }
          OtherStepKeepsSettled(mode, env, before, d, c, d, last);
        }
      }
    }
  }

  lemma {:induction false} ForCategoriesKeepsSettled(mode: Mode, env: Env, fs: FileSystem, d: Date, c: Category, d': Date, cs: seq<Category>)
    requires ValidDate(d) && ValidDate(d') && d != d'
    requires Settled(mode, env, fs, d, c)
    ensures Settled(mode, env, ForCategories(mode, env, fs, d', cs), d, c)
  {
    if cs != [] {
      ForCategoriesKeepsSettled(mode, env, fs, d, c, d', cs[..|cs| - 1]);
      OtherStepKeepsSettled(mode, env, ForCategories(mode, env, fs, d', cs[..|cs| - 1]), d, c, d', cs[|cs| - 1]);
    }
  }

  /** After a pass, every pair of the pass is settled. */
  lemma {:induction false} ForDatesSettles(mode: Mode, env: Env, fs: FileSystem, ds: seq<Date>)
    requires AllValid(ds)
    ensures forall i, c :: 0 <= i < |ds| ==> Settled(mode, env, ForDates(mode, env, fs, ds), ds[i], c)
  {
    if ds != [] {
      var prefix, last := ds[..|ds| - 1], ds[|ds| - 1];
      var before := ForDates(mode, env, fs, prefix);
      var after := ForCategories(mode, env, before, last, Categories);
      assert ForDates(mode, env, fs, ds) == after;
      ForDatesSettles(mode, env, fs, prefix);
      forall i, c | 0 <= i < |ds|
        ensures Settled(mode, env, after, ds[i], c)
      {
        if i < |ds| - 1 {
          assert prefix[i] == ds[i];
        }
        SettledAfterDate(mode, env, before, ds[i], last, c);
      }
    }
  }

  /** Processing `last` settles its own pairs and keeps other dates' pairs settled. */
  lemma SettledAfterDate(mode: Mode, env: Env, before: FileSystem, d: Date, last: Date, c: Category)
    requires ValidDate(d) && ValidDate(last)
    requires d == last || Settled(mode, env, before, d, c)
    ensures Settled(mode, env, ForCategories(mode, env, before, last, Categories), d, c)
  {
    if d == last {
      CategoryListed(c);
      ForCategoriesSettles(mode, env, before, last, Categories);
    } else {
      ForCategoriesKeepsSettled(mode, env, before, d, c, last, Categories);
    }
  }

  lemma {:induction false} SettledForCategoriesIsIdentity(mode: Mode, env: Env, fs: FileSystem, d: Date, cs: seq<Category>)
    requires ValidDate(d)
    requires forall c :: Settled(mode, env, fs, d, c)
    ensures ForCategories(mode, env, fs, d, cs) == fs
  {
    if cs != [] {
      SettledForCategoriesIsIdentity(mode, env, fs, d, cs[..|cs| - 1]);
      SettledStepIsIdentity(mode, env, fs, d, cs[|cs| - 1]);
    }
  }

  lemma {:induction false} SettledForDatesIsIdentity(mode: Mode, env: Env, fs: FileSystem, ds: seq<Date>)
    requires AllValid(ds)
    requires forall i, c :: 0 <= i < |ds| ==> Settled(mode, env, fs, ds[i], c)
    ensures ForDates(mode, env, fs, ds) == fs
  {
    if ds != [] {
      var prefix := ds[..|ds| - 1];
      SettledForDatesIsIdentity(mode, env, fs, prefix);
      SettledForCategoriesIsIdentity(mode, env, fs, ds[|ds| - 1], Categories);
    }
  }

  /** Running a pass twice over the same dates, with the clock and settings
      fixed, gives the same file system as running it once. */
  lemma PassIdempotent(mode: Mode, env: Env, fs: FileSystem, ds: seq<Date>)
    requires AllValid(ds)
    ensures ForDates(mode, env, ForDates(mode, env, fs, ds), ds) == ForDates(mode, env, fs, ds)
  {
    ForDatesSettles(mode, env, fs, ds);
    SettledForDatesIsIdentity(mode, env, ForDates(mode, env, fs, ds), ds);
  }

  /** A present note that is not due for deletion is settled in both passes. */
  lemma PresentNotDueIsSettled(mode: Mode, env: Env, fs: FileSystem, d: Date, c: Category)
    requires ValidDate(d) && FilePath(env.root, d, c) in fs && !DeletionDue(env, fs, d, c)
    ensures Settled(mode, env, fs, d, c)
  {
  }

  /** No step changes a present note that is not due for deletion. */
  lemma StepKeepsNotDue(mode: Mode, env: Env, fs: FileSystem, d: Date, c: Category, d': Date, c': Category)
    requires ValidDate(d) && ValidDate(d')
    requires FilePath(env.root, d, c) in fs && !DeletionDue(env, fs, d, c)
    ensures AgreeAt(Step(mode, env, fs, d', c'), fs, FilePath(env.root, d, c))
  {
    if FilePath(env.root, d, c) == FilePath(env.root, d', c') {
      FilePathInjective(env.root, d, c, d', c');
      PresentNotDueIsSettled(mode, env, fs, d, c);
      SettledStepIsIdentity(mode, env, fs, d, c);
    } else {
      StepLocal(mode, env, fs, d', c', FilePath(env.root, d, c));
    }
  }

  /** Whether a note is due depends only on what its own path holds. */
  lemma DueAt(env: Env, fs: FileSystem, fs': FileSystem, d: Date, c: Category)
    requires ValidDate(d) && AgreeAt(fs, fs', FilePath(env.root, d, c))
    ensures DeletionDue(env, fs, d, c) <==> DeletionDue(env, fs', d, c)
  {
  }

  lemma {:induction false} ForCategoriesKeepsNotDue(mode: Mode, env: Env, fs: FileSystem, d: Date, c: Category, d': Date, cs: seq<Category>)
    requires ValidDate(d) && ValidDate(d')
    requires FilePath(env.root, d, c) in fs && !DeletionDue(env, fs, d, c)
    ensures AgreeAt(ForCategories(mode, env, fs, d', cs), fs, FilePath(env.root, d, c))
  {
    if cs != [] {
      var before := ForCategories(mode, env, fs, d', cs[..|cs| - 1]);
      ForCategoriesKeepsNotDue(mode, env, fs, d, c, d', cs[..|cs| - 1]);
      DueAt(env, fs, before, d, c);
      StepKeepsNotDue(mode, env, before, d, c, d', cs[|cs| - 1]);
    }
  }

  /** Neither pass touches a note that is present and not due for deletion:
      a note with real content, a note dated today or later, or a note
      whose category's deletion setting is off stays byte-identical. */
  lemma {:induction false} PassKeepsNotDue(mode: Mode, env: Env, fs: FileSystem, ds: seq<Date>, d: Date, c: Category)
    requires AllValid(ds) && ValidDate(d)
    requires FilePath(env.root, d, c) in fs && !DeletionDue(env, fs, d, c)
    ensures AgreeAt(ForDates(mode, env, fs, ds), fs, FilePath(env.root, d, c))
  {
    if ds != [] {
      var before := ForDates(mode, env, fs, ds[..|ds| - 1]);
      PassKeepsNotDue(mode, env, fs, ds[..|ds| - 1], d, c);
      DueAt(env, fs, before, d, c);
      ForCategoriesKeepsNotDue(mode, env, before, d, c, ds[|ds| - 1], Categories);
    }
  }

  lemma {:induction false} ForCategoriesLocal(mode: Mode, env: Env, fs: FileSystem, d: Date, cs: seq<Category>, q: Path)
    requires ValidDate(d)
    requires forall c :: q != FilePath(env.root, d, c)
    ensures AgreeAt(ForCategories(mode, env, fs, d, cs), fs, q)
  {
    if cs != [] {
      ForCategoriesLocal(mode, env, fs, d, cs[..|cs| - 1], q);
      StepLocal(mode, env, ForCategories(mode, env, fs, d, cs[..|cs| - 1]), d, cs[|cs| - 1], q);
    }
  }

  /** A pass changes nothing but the notes of its own dates. */
  lemma {:induction false} PassLocal(mode: Mode, env: Env, fs: FileSystem, ds: seq<Date>, q: Path)
    requires AllValid(ds)
    requires forall i, c :: 0 <= i < |ds| ==> q != FilePath(env.root, ds[i], c)
    ensures AgreeAt(ForDates(mode, env, fs, ds), fs, q)
  {
    if ds != [] {
      var prefix := ds[..|ds| - 1];
      assert forall i, c :: 0 <= i < |prefix| ==> q != FilePath(env.root, prefix[i], c) by {
        forall i, c | 0 <= i < |prefix| ensures q != FilePath(env.root, prefix[i], c) {
          assert prefix[i] == ds[i];
        }
      }
      PassLocal(mode, env, fs, prefix, q);
      ForCategoriesLocal(mode, env, ForDates(mode, env, fs, prefix), ds[|ds| - 1], Categories, q);
    }
  }

  /** `fs'` holds a subset of the files of `fs`, each with unchanged text. */
  predicate Shrunk(fs': FileSystem, fs: FileSystem) {
    fs'.Keys <= fs.Keys && forall q :: q in fs' ==> fs'[q] == fs[q]
  }

  lemma {:induction false} ForCategoriesCleaningShrinks(env: Env, fs: FileSystem, d: Date, cs: seq<Category>)
    requires ValidDate(d)
    ensures Shrunk(ForCategories(Cleaning, env, fs, d, cs), fs)
  {
    if cs != [] {
      ForCategoriesCleaningShrinks(env, fs, d, cs[..|cs| - 1]);
    }
  }

  /** The cleaning pass never creates a file and never changes a file's text. */
  lemma {:induction false} CleaningShrinks(env: Env, fs: FileSystem, ds: seq<Date>)
    requires AllValid(ds)
    ensures Shrunk(ForDates(Cleaning, env, fs, ds), fs)
  {
    if ds != [] {
      var before := ForDates(Cleaning, env, fs, ds[..|ds| - 1]);
      CleaningShrinks(env, fs, ds[..|ds| - 1]);
      ForCategoriesCleaningShrinks(env, before, ds[|ds| - 1], Categories);
    }
  }

  /** The cleaning pass removes exactly the notes of its dates that were due. */
  lemma CleaningRemovesDue(env: Env, fs: FileSystem, ds: seq<Date>, i: int, c: Category)
    requires AllValid(ds) && 0 <= i < |ds|
    ensures FilePath(env.root, ds[i], c) in ForDates(Cleaning, env, fs, ds) <==>
      FilePath(env.root, ds[i], c) in fs && !DeletionDue(env, fs, ds[i], c)
  {
    var p, r := FilePath(env.root, ds[i], c), ForDates(Cleaning, env, fs, ds);
    CleaningShrinks(env, fs, ds);
    ForDatesSettles(Cleaning, env, fs, ds);
    assert !DeletionDue(env, r, ds[i], c) by {
      assert Settled(Cleaning, env, r, ds[i], c);
    }
    if p in r {
      assert AgreeAt(fs, r, p);
      DueAt(env, fs, r, ds[i], c);
    }
    if p in fs && !DeletionDue(env, fs, ds[i], c) {
      PassKeepsNotDue(Cleaning, env, fs, ds, ds[i], c);
    }
  }

  lemma {:induction false} ForCategoriesCreatingGrows(env: Env, fs: FileSystem, d: Date, cs: seq<Category>)
    requires ValidDate(d)
    ensures fs.Keys <= ForCategories(Creating, env, fs, d, cs).Keys
  {
    if cs != [] {
      ForCategoriesCreatingGrows(env, fs, d, cs[..|cs| - 1]);
    }
  }

  /** The creation pass never removes a file for good. */
  lemma {:induction false} CreatingGrows(env: Env, fs: FileSystem, ds: seq<Date>)
    requires AllValid(ds)
    ensures fs.Keys <= ForDates(Creating, env, fs, ds).Keys
  {
    if ds != [] {
      var before := ForDates(Creating, env, fs, ds[..|ds| - 1]);
      CreatingGrows(env, fs, ds[..|ds| - 1]);
      ForCategoriesCreatingGrows(env, before, ds[|ds| - 1], Categories);
    }
  }

  /** After the creation pass, every note its gate allows exists. */
  lemma CreatingFillsAllowed(env: Env, fs: FileSystem, ds: seq<Date>, i: int, c: Category)
    requires AllValid(ds) && 0 <= i < |ds|
    requires CreationAllowed(env.cfg, env.now.date, ds[i], c)
    ensures FilePath(env.root, ds[i], c) in ForDates(Creating, env, fs, ds)
  {
    ForDatesSettles(Creating, env, fs, ds);
    assert Settled(Creating, env, ForDates(Creating, env, fs, ds), ds[i], c);
  }

  /** The note's text is its original text or the current title. */
  predicate OriginalOrTitle(fs': FileSystem, fs: FileSystem, d: Date, c: Category, root: Path)
    requires ValidDate(d)
  {
    var p := FilePath(root, d, c);
    p in fs' ==> (p in fs && fs'[p] == fs[p]) || fs'[p] == Title(d, c)
  }

  lemma StepWritesOnlyTitle(env: Env, cur: FileSystem, fs: FileSystem, d: Date, c: Category, d': Date, c': Category)
    requires ValidDate(d) && ValidDate(d')
    requires OriginalOrTitle(cur, fs, d, c, env.root)
    ensures OriginalOrTitle(Step(Creating, env, cur, d', c'), fs, d, c, env.root)
  {
    if FilePath(env.root, d, c) == FilePath(env.root, d', c') {
      FilePathInjective(env.root, d, c, d', c');
    } else {
      StepLocal(Creating, env, cur, d', c', FilePath(env.root, d, c));
    }
  }

  lemma {:induction false} ForCategoriesWritesOnlyTitle(env: Env, cur: FileSystem, fs: FileSystem, d: Date, c: Category, d': Date, cs: seq<Category>)
    requires ValidDate(d) && ValidDate(d')
    requires OriginalOrTitle(cur, fs, d, c, env.root)
    ensures OriginalOrTitle(ForCategories(Creating, env, cur, d', cs), fs, d, c, env.root)
  {
    if cs != [] {
      ForCategoriesWritesOnlyTitle(env, cur, fs, d, c, d', cs[..|cs| - 1]);
      StepWritesOnlyTitle(env, ForCategories(Creating, env, cur, d', cs[..|cs| - 1]), fs, d, c, d', cs[|cs| - 1]);
    }
  }

  /** The creation pass writes nothing but titles: each note ends up with
      its original text or with exactly the current title. */
  lemma {:induction false} CreatingWritesOnlyTitles(env: Env, fs: FileSystem, ds: seq<Date>, d: Date, c: Category)
    requires AllValid(ds) && ValidDate(d)
    ensures OriginalOrTitle(ForDates(Creating, env, fs, ds), fs, d, c, env.root)
  {
    if ds != [] {
      var before := ForDates(Creating, env, fs, ds[..|ds| - 1]);
      CreatingWritesOnlyTitles(env, fs, ds[..|ds| - 1], d, c);
      ForCategoriesWritesOnlyTitle(env, before, fs, d, c, ds[|ds| - 1], Categories);
    }
  }

  lemma StepOnlyAllowed(env: Env, fs: FileSystem, d: Date, c: Category, d': Date, c': Category)
    requires ValidDate(d) && ValidDate(d')
    requires FilePath(env.root, d, c) !in fs && !CreationAllowed(env.cfg, env.now.date, d, c)
    ensures FilePath(env.root, d, c) !in Step(Creating, env, fs, d', c')
  {
    if FilePath(env.root, d, c) == FilePath(env.root, d', c') {
      FilePathInjective(env.root, d, c, d', c');
    } else {
      StepLocal(Creating, env, fs, d', c', FilePath(env.root, d, c));
    }
  }

  lemma {:induction false} ForCategoriesOnlyAllowed(env: Env, fs: FileSystem, d: Date, c: Category, d': Date, cs: seq<Category>)
    requires ValidDate(d) && ValidDate(d')
    requires FilePath(env.root, d, c) !in fs && !CreationAllowed(env.cfg, env.now.date, d, c)
    ensures FilePath(env.root, d, c) !in ForCategories(Creating, env, fs, d', cs)
  {
    if cs != [] {
      ForCategoriesOnlyAllowed(env, fs, d, c, d', cs[..|cs| - 1]);
      StepOnlyAllowed(env, ForCategories(Creating, env, fs, d', cs[..|cs| - 1]), d, c, d', cs[|cs| - 1]);
    }
  }

  /** The creation pass never creates a note whose gate is closed: with the
      past setting off, no note appears for a date before today. */
  lemma {:induction false} CreatingOnlyAllowed(env: Env, fs: FileSystem, ds: seq<Date>, d: Date, c: Category)
    requires AllValid(ds) && ValidDate(d)
    requires FilePath(env.root, d, c) !in fs && !CreationAllowed(env.cfg, env.now.date, d, c)
    ensures FilePath(env.root, d, c) !in ForDates(Creating, env, fs, ds)
  {
    if ds != [] {
      CreatingOnlyAllowed(env, fs, ds[..|ds| - 1], d, c);
      ForCategoriesOnlyAllowed(env, ForDates(Creating, env, fs, ds[..|ds| - 1]), d, c, ds[|ds| - 1], Categories);
    }
  }
}

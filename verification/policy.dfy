/** The per-(date, category) decisions of the creator: may a note be
    created, is an existing note due for deletion, and what one creation or
    deletion step does to the filesystem. The filesystem is a map from a
    file's path to its text; `today` is the date part of the clock. */
module Policy {
  import opened Dates
  import opened Text
  import opened Settings
  import opened Layout

  type FileSystem = map<Path, string>

  /** `_is_file_empty`: a missing file is never empty. */
  predicate IsFileEmpty(fs: FileSystem, p: Path, d: Date, c: Category)
    requires ValidDate(d)
  {
    p in fs && TitleOnly(fs[p], d, c)
  }

  /** The creation gate of `_create_file`: a past date needs the global past
      setting, then the category's future or non-future setting decides. By
      temporal bucket, comparing dates only: the past needs two settings,
      today and the future one each. */
  function CreationAllowed(cfg: Config, today: Date, d: Date, c: Category): (ok: bool)
    ensures Before(d, today) ==>
      (ok <==> FlagOn(cfg, "CAN_CREATE_PAST_FILES") && FlagOn(cfg, "CAN_CREATE_" + SettingWord(c) + "_FILES"))
    ensures d == today ==> (ok <==> FlagOn(cfg, "CAN_CREATE_" + SettingWord(c) + "_FILES"))
    ensures Before(today, d) ==> (ok <==> FlagOn(cfg, "CAN_CREATE_FUTURE_" + SettingWord(c) + "_FILES"))
  {
    var isFuture := Before(today, d);
    var isPast := Before(d, today);
    (!isPast || FlagOn(cfg, PastCreationSetting)) && FlagOn(cfg, CreationSetting(c, isFuture))
  }

  /** `_delete_empty_past_file`: the early returns of the source in order. */
  function DeleteEmptyPastFile(cfg: Config, today: Date, fs: FileSystem, p: Path, d: Date, c: Category): (r: FileSystem)
    requires ValidDate(d)
    ensures r == fs || r == fs - {p}
    ensures p !in r <==>
      p !in fs || (Before(d, today) && FlagOn(cfg, DeletionSetting(c)) && TitleOnly(fs[p], d, c))
  {
    if p !in fs then fs
    else if !Before(d, today) then fs
    else if !FlagOn(cfg, DeletionSetting(c)) then fs
    else if IsFileEmpty(fs, p, d, c) then fs - {p}
    else fs
  }

  /** `_create_file` for a note rooted at `root`. */
  function CreateFile(cfg: Config, today: Date, root: Path, fs: FileSystem, d: Date, c: Category): (r: FileSystem)
    requires ValidDate(d)
    ensures forall q :: q != FilePath(root, d, c) ==> (q in r <==> q in fs) && (q in r ==> r[q] == fs[q])
    ensures !CreationAllowed(cfg, today, d, c) ==> r == fs
    ensures CreationAllowed(cfg, today, d, c) ==> FilePath(root, d, c) in r
    ensures fs.Keys <= r.Keys
    ensures var p := FilePath(root, d, c);
      p in r ==> r[p] == Title(d, c) || (p in fs && r[p] == fs[p])
    ensures var p := FilePath(root, d, c);
      p in fs && !TitleOnly(fs[p], d, c) ==> r[p] == fs[p]
    ensures var p := FilePath(root, d, c);
      CreationAllowed(cfg, today, d, c) && p !in fs ==> r[p] == Title(d, c)
    ensures var p := FilePath(root, d, c);
      p in fs && !(Before(d, today) && FlagOn(cfg, DeletionSetting(c)) && TitleOnly(fs[p], d, c)) ==>
        p in r && r[p] == fs[p]
  {
    if !CreationAllowed(cfg, today, d, c) then fs
    else
      var p := FilePath(root, d, c);
      var afterDeletion := DeleteEmptyPastFile(cfg, today, fs, p, d, c);
      if p in afterDeletion then afterDeletion else afterDeletion[p := Title(d, c)]
  }

  /** Once the gate passes, a note that was due for deletion is rewritten
      with the current title: stale legacy titles are migrated. */
  lemma CreateFileRewritesStale(cfg: Config, today: Date, root: Path, fs: FileSystem, d: Date, c: Category)
    requires ValidDate(d)
    requires CreationAllowed(cfg, today, d, c)
    requires FilePath(root, d, c) in fs && Before(d, today) && FlagOn(cfg, DeletionSetting(c))
    requires TitleOnly(fs[FilePath(root, d, c)], d, c)
    ensures CreateFile(cfg, today, root, fs, d, c) == fs[FilePath(root, d, c) := Title(d, c)]
  {
    var p := FilePath(root, d, c);
    var r := CreateFile(cfg, today, root, fs, d, c);
    assert r == (fs - {p})[p := Title(d, c)];
  }

  /** Deletion inside `_create_file` only runs behind the creation gate: a
      due note survives a creation step whose gate is closed. */
  lemma ClosedGateKeepsStale(cfg: Config, today: Date, root: Path, fs: FileSystem, d: Date, c: Category)
    requires ValidDate(d)
    requires !FlagOn(cfg, PastCreationSetting) && Before(d, today)
    requires FilePath(root, d, c) in fs && FlagOn(cfg, DeletionSetting(c))
    requires TitleOnly(fs[FilePath(root, d, c)], d, c)
    ensures FilePath(root, d, c) in CreateFile(cfg, today, root, fs, d, c)
    ensures FilePath(root, d, c) !in DeleteEmptyPastFile(cfg, today, fs, FilePath(root, d, c), d, c)
  {
  }
}
